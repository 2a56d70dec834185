/** Every request is replied to exactly once, and outstanding work is bounded. */
module ServerReplies {
  import opened Basics
  import opened Coordinator
  import opened ServerModel
  import opened ServerSums
  import opened ServerOwner

  /** The counter is the number of live permits. */
  ghost predicate PermitsFit(s: State) {
    s.active == Sum(s.threads, Permits) && s.active <= MAX_ACTIVE_REQUESTS
  }

  /** Each time the ticket was received, it was replied to, or is with a thread
      that has not registered it, or in the coordinator, or in a drained batch. */
  ghost predicate TicketFits(s: State, x: Ticket) {
    Count(s.trace, Receipts(x)) ==
    Count(s.trace, Replies(x)) + Sum(s.threads, Owes(x)) + TicketCount(s.coordinator.Waiting(), x)
  }

  function PairCount(c: CoordinatorState, id: RequestId, key: RefreshKey): nat {
    if !c.Idle? && c.key == key then multiset(c.ids)[id] else 0
  }

  /** Each time the id was registered under the key, a scan of that very key has
      answered it, or has drained it, or will drain it. */
  ghost predicate PairFits(s: State, id: RequestId, key: RefreshKey) {
    Count(s.trace, Joins(id, key)) ==
    Count(s.trace, Answers(id, key)) + Sum(s.threads, OwesPair(id, key)) + PairCount(s.coordinator, id, key)
  }

  ghost predicate RepliesFit(s: State) {
    && PermitsFit(s)
    && (forall x :: TicketFits(s, x))
    && (forall id, key :: PairFits(s, id, key))
  }

  /** Waking parked threads changes no weight but the rank. */
  lemma SumWoken(m: map<Tid, Thread>, w: Weight)
    requires !w.Rank?
    ensures Sum(Woken(m), w) == Sum(m, w)
  {
    SumAtMost(m, w, Woken(m), w);
    SumAtMost(Woken(m), w, m, w);
  }

  function AllWoken(s: State): State {
    s.(threads := Woken(s.threads))
  }

  // ----- Permits -----

  lemma PermitsBalance(s: State, s': State, t: Tid, pc: Pc)
    requires PermitsFit(s) && t in s.threads
    requires s'.threads == Moved(s, t, pc).threads
    requires s'.active - WeightOf(s.threads[t].(pc := pc), Permits) == s.active - WeightOf(s.threads[t], Permits)
    requires s'.active <= MAX_ACTIVE_REQUESTS
    ensures PermitsFit(s')
  {
    SumSet(s.threads, t, s.threads[t].(pc := pc), Permits);
  }

  lemma PermitsFitKept(s: State, a: Action)
    requires PermitsFit(s) && Enabled(s, a)
    ensures PermitsFit(Apply(s, a))
  {
    match a {
      case Arrive(t, request) => SumSet(s.threads, t, Thread(request, Loading), Permits);
      case Limit(t, step) => LimitPermits(s, t, step);
      case Loop(t, step) => LoopPermits(s, t, step);
      case Scan(t, step) => ScanPermits(s, t, step);
      case Reply(t, step) => ReplyPermits(s, t, step);
      case Config(t, step) => ConfigPermits(s, t, step);
    }
  }

  lemma LimitPermits(s: State, t: Tid, step: LimitStep)
    requires PermitsFit(s) && t in s.threads && LimitEnabled(s, t, step)
    ensures PermitsFit(LimitApply(s, t, step))
  {
    var s' := LimitApply(s, t, step);
    PermitsBalance(s, s', t, s'.threads[t].pc);
  }

  lemma LoopPermits(s: State, t: Tid, step: LoopStep)
    requires PermitsFit(s) && t in s.threads && LoopEnabled(s, t, step)
    ensures PermitsFit(LoopApply(s, t, step))
  {
    var s' := LoopApply(s, t, step);
    PermitsBalance(s, s', t, s'.threads[t].pc);
  }

  lemma ScanPermits(s: State, t: Tid, step: ScanStep)
    requires PermitsFit(s) && t in s.threads && ScanEnabled(s, t, step)
    ensures PermitsFit(ScanApply(s, t, step))
  {
    var s' := ScanApply(s, t, step);
    PermitsBalance(s, s', t, s'.threads[t].pc);
  }

  lemma ConfigPermits(s: State, t: Tid, step: ConfigureStep)
    requires PermitsFit(s) && t in s.threads && ConfigEnabled(s, t, step)
    ensures PermitsFit(ConfigApply(s, t, step))
  {
    var s' := ConfigApply(s, t, step);
    PermitsBalance(s, s', t, s'.threads[t].pc);
  }

  lemma ReplyPermits(s: State, t: Tid, step: ReplyStep)
    requires PermitsFit(s) && t in s.threads && ReplyEnabled(s, t, step)
    ensures PermitsFit(ReplyApply(s, t, step))
  {
    var s' := ReplyApply(s, t, step);
    if step.Complete? && s.coordinator.ids == [] {
      SumWoken(s.threads, Permits);
      PermitsBalance(AllWoken(s), s', t, s'.threads[t].pc);
    } else {
      PermitsBalance(s, s', t, s'.threads[t].pc);
    }
  }

  /** The counter of live permits cannot underflow when one is dropped. */
  lemma PermitHeld(s: State, t: Tid)
    requires PermitsFit(s) && t in s.threads && HoldsPermit(s.threads[t].pc)
    ensures 0 < s.active
  {
    SumRemove(s.threads, t, Permits);
  }

  // ----- Tickets -----

  function CountAll(es: seq<Event>, tally: Tally): nat
    requires |es| <= 1
  {
    if es == [] then 0 else CountOf(es[0], tally)
  }

  lemma CountExtend(trace: Trace, es: seq<Event>, tally: Tally)
    requires |es| <= 1
    ensures Count(trace + es, tally) == Count(trace, tally) + CountAll(es, tally)
  {
    if es == [] {
      assert trace + es == trace;
    } else {
      assert es == [es[0]];
      CountAppend(trace, es[0], tally);
    }
  }

  /** A step that moves a ticket between the thread, the coordinator and the
      history without losing or doubling it. */
  lemma TicketBalance(s: State, s': State, t: Tid, pc: Pc, es: seq<Event>, x: Ticket)
    requires TicketFits(s, x) && t in s.threads
    requires s'.threads == Moved(s, t, pc).threads
    requires |es| <= 1 && s'.trace == s.trace + es
    requires CountAll(es, Receipts(x)) == 0
    requires Owed(s.threads[t], x) + TicketCount(s.coordinator.Waiting(), x)
          == CountAll(es, Replies(x)) + Owed(s.threads[t].(pc := pc), x) + TicketCount(s'.coordinator.Waiting(), x)
    ensures TicketFits(s', x)
  {
    SumSet(s.threads, t, s.threads[t].(pc := pc), Owes(x));
    CountExtend(s.trace, es, Receipts(x));
    CountExtend(s.trace, es, Replies(x));
  }

  lemma TicketFitsKept(s: State, a: Action, x: Ticket)
    requires OwnerFits(s) && TicketFits(s, x) && Enabled(s, a)
    ensures TicketFits(Apply(s, a), x)
  {
    match a {
      case Arrive(t, request) => ArriveTicket(s, t, request, x);
      case Limit(t, step) => LimitTicket(s, t, step, x);
      case Loop(t, step) => LoopTicket(s, t, step, x);
      case Scan(t, step) => ScanTicket(s, t, step, x);
      case Reply(t, step) => ReplyTicket(s, t, step, x);
      case Config(t, step) => ConfigTicket(s, t, step, x);
    }
  }

  lemma ArriveTicket(s: State, t: Tid, request: Request, x: Ticket)
    requires TicketFits(s, x) && t !in s.threads
    ensures TicketFits(Arrived(s, t, request), x)
  {
    SumSet(s.threads, t, Thread(request, Loading), Owes(x));
    CountAppend(s.trace, Received(TicketOf(request)), Receipts(x));
    CountAppend(s.trace, Received(TicketOf(request)), Replies(x));
  }

  lemma LimitTicket(s: State, t: Tid, step: LimitStep, x: Ticket)
    requires TicketFits(s, x) && t in s.threads && LimitEnabled(s, t, step)
    ensures TicketFits(LimitApply(s, t, step), x)
  {
    hide TicketFits;
    var s' := LimitApply(s, t, step);
    TicketBalance(s, s', t, s'.threads[t].pc, s'.trace[|s.trace|..], x);
  }

  lemma TicketCountAppend(ids: seq<RequestId>, id: RequestId, x: Ticket)
    ensures TicketCount(ids + [id], x) == TicketCount(ids, x) + if x == RefreshTicket(id) then 1 else 0
  {
  }

  /** An id that enters the coordinator leaves the thread. */
  lemma HandOverTicket(s: State, s': State, t: Tid, pc: Pc, x: Ticket)
    requires TicketFits(s, x) && t in s.threads
    requires HoldsOwnId(s.threads[t].pc) && s.threads[t].request.Refresh?
    requires !HoldsOwnId(pc) && !pc.Replying?
    requires s'.threads == Moved(s, t, pc).threads
    requires s'.coordinator.Waiting() == s.coordinator.Waiting() + [s.threads[t].request.id]
    requires exists key :: s'.trace == s.trace + [Joining(s.threads[t].request.id, key)]
    ensures TicketFits(s', x)
  {
    var id := s.threads[t].request.id;
    var key :| s'.trace == s.trace + [Joining(id, key)];
    TicketCountAppend(s.coordinator.Waiting(), id, x);
    TicketBalance(s, s', t, pc, [Joining(id, key)], x);
  }

  lemma RegisterTicket(s: State, t: Tid, todo: nat, x: Ticket)
    requires TicketFits(s, x) && t in s.threads && s.threads[t].pc.Registering? && s.threads[t].request.Refresh?
    ensures TicketFits(RegisterEffect(s, t, s.threads[t].pc.key, todo), x)
  {
    var key := s.threads[t].pc.key;
    var id := s.threads[t].request.id;
    var s' := RegisterEffect(s, t, key, todo);
    match Registered(s.coordinator, id, key).1
    case Start =>
      assert [] + [id] == [id];
      HandOverTicket(s, s', t, Reporting(key, todo, NOBODY, Discovery), x);
    case Joined =>
      HandOverTicket(s, s', t, Leaving, x);
    case Wait =>
      assert s'.trace == s.trace + [];
      TicketBalance(s, s', t, CheckingIdle, [], x);
    case Busy =>
      assert s'.trace == s.trace + [];
      TicketBalance(s, s', t, Rejected, [], x);
  }

  lemma LoopTicket(s: State, t: Tid, step: LoopStep, x: Ticket)
    requires OwnerFits(s) && TicketFits(s, x) && t in s.threads && LoopEnabled(s, t, step)
    ensures TicketFits(LoopApply(s, t, step), x)
  {
    assert ThreadFits(s.coordinator, s.threads[t]);
    hide TicketFits, OwnerFits;
    if step.Register? {
      RegisterTicket(s, t, step.todo, x);
    } else {
      var s' := LoopApply(s, t, step);
      TicketBalance(s, s', t, s'.threads[t].pc, s'.trace[|s.trace|..], x);
    }
  }

  /** A step of an owner that sends no reply. */
  lemma NoReplyTicket(s: State, s': State, t: Tid, pc: Pc, es: seq<Event>, x: Ticket)
    requires TicketFits(s, x) && t in s.threads
    requires s'.threads == Moved(s, t, pc).threads && s'.coordinator == s.coordinator
    requires !HoldsOwnId(s.threads[t].pc) && !s.threads[t].pc.Replying? && !HoldsOwnId(pc) && !pc.Replying?
    requires |es| <= 1 && s'.trace == s.trace + es
    requires es != [] ==> es[0].Notified? || es[0].Synced?
    ensures TicketFits(s', x)
  {
    hide TicketFits;
    TicketBalance(s, s', t, pc, es, x);
  }

  lemma ScanTicket(s: State, t: Tid, step: ScanStep, x: Ticket)
    requires TicketFits(s, x) && t in s.threads && ScanEnabled(s, t, step)
    ensures TicketFits(ScanApply(s, t, step), x)
  {
    if step.EmitReport? || step.EndSync? {
      LoggedScanTicket(s, t, step, x);
    } else if IsReportStep(step) {
      ReportTicket(s, t, step, x);
    } else {
      var s' := ScanApply(s, t, step);
      assert s'.trace == s.trace + [];
      NoReplyTicket(s, s', t, s'.threads[t].pc, [], x);
    }
  }

  lemma ReportTicket(s: State, t: Tid, step: ScanStep, x: Ticket)
    requires TicketFits(s, x) && t in s.threads && ScanEnabled(s, t, step) && IsReportStep(step) && !step.EmitReport?
    ensures TicketFits(ScanApply(s, t, step), x)
  {
    hide TicketFits, LaneAfter;
    var s' := ScanApply(s, t, step);
    assert s'.trace == s.trace + [];
    NoReplyTicket(s, s', t, s'.threads[t].pc, [], x);
  }

  lemma LoggedScanTicket(s: State, t: Tid, step: ScanStep, x: Ticket)
    requires TicketFits(s, x) && t in s.threads && ScanEnabled(s, t, step) && (step.EmitReport? || step.EndSync?)
    ensures TicketFits(ScanApply(s, t, step), x)
  {
    hide TicketFits, LaneAfter;
    var s' := ScanApply(s, t, step);
    NoReplyTicket(s, s', t, s'.threads[t].pc, [s'.trace[|s.trace|]], x);
  }

  lemma ReplyTicket(s: State, t: Tid, step: ReplyStep, x: Ticket)
    requires TicketFits(s, x) && t in s.threads && ReplyEnabled(s, t, step)
    ensures TicketFits(ReplyApply(s, t, step), x)
  {
    match step {
      case ReplyOne => ReplyOneTicket(s, t, x);
      case Complete(telemetry) => CompleteTicket(s, t, telemetry, x);
      case _ => DrainTicket(s, t, step, x);
    }
  }

  lemma ReplyOneTicket(s: State, t: Tid, x: Ticket)
    requires TicketFits(s, x) && t in s.threads && ReplyEnabled(s, t, ReplyOne)
    ensures TicketFits(ReplyApply(s, t, ReplyOne), x)
  {
    var pc := s.threads[t].pc;
    assert pc.batch == [pc.batch[0]] + pc.batch[1..];
    TicketBalance(s, ReplyApply(s, t, ReplyOne), t, pc.(batch := pc.batch[1..]),
                  [Answered(pc.batch[0], pc.key, pc.ok)], x);
  }

  lemma DrainTicket(s: State, t: Tid, step: ReplyStep, x: Ticket)
    requires TicketFits(s, x) && t in s.threads && ReplyEnabled(s, t, step)
    requires step.BeginCompletion? || step.Drain? || step.EndBatch?
    ensures TicketFits(ReplyApply(s, t, step), x)
  {
    hide TicketFits;
    var s' := ReplyApply(s, t, step);
    assert s'.trace == s.trace + [];
    TicketBalance(s, s', t, s'.threads[t].pc, [], x);
  }

  lemma CompleteTicket(s: State, t: Tid, telemetry: nat, x: Ticket)
    requires TicketFits(s, x) && t in s.threads && ReplyEnabled(s, t, Complete(telemetry))
    ensures TicketFits(CompleteEffect(s, t, s.threads[t].pc, telemetry), x)
  {
    var s' := CompleteEffect(s, t, s.threads[t].pc, telemetry);
    assert s'.trace == s.trace + [];
    if s.coordinator.ids == [] {
      SumWoken(s.threads, Owes(x));
      TicketBalance(AllWoken(s), s', t, s'.threads[t].pc, [], x);
    } else {
      TicketBalance(s, s', t, s'.threads[t].pc, [], x);
    }
  }

  lemma ConfigTicket(s: State, t: Tid, step: ConfigureStep, x: Ticket)
    requires OwnerFits(s) && TicketFits(s, x) && t in s.threads && ConfigEnabled(s, t, step)
    ensures TicketFits(ConfigApply(s, t, step), x)
  {
    assert ThreadFits(s.coordinator, s.threads[t]);
    if step.ReplyConfigure? {
      ConfigAnsweredTicket(s, t, x);
    } else if step.Commit? {
      var s' := ConfigApply(s, t, Commit);
      KeptTicket(s, s', t, s'.threads[t].pc, [s'.trace[|s.trace|]], x);
    } else {
      ConfigStepTicket(s, t, step, x);
    }
  }

  lemma ConfigStepTicket(s: State, t: Tid, step: ConfigureStep, x: Ticket)
    requires TicketFits(s, x) && t in s.threads && ConfigEnabled(s, t, step) && !step.Commit? && !step.ReplyConfigure?
    ensures TicketFits(ConfigApply(s, t, step), x)
  {
    hide TicketFits;
    var s' := ConfigApply(s, t, step);
    assert s'.trace == s.trace + [];
    KeptTicket(s, s', t, s'.threads[t].pc, [], x);
  }

  lemma ConfigAnsweredTicket(s: State, t: Tid, x: Ticket)
    requires TicketFits(s, x) && t in s.threads && ConfigEnabled(s, t, ReplyConfigure)
    requires ThreadFits(s.coordinator, s.threads[t])
    ensures TicketFits(ConfigApply(s, t, ReplyConfigure), x)
  {
    hide TicketFits;
    var s' := ConfigApply(s, t, ReplyConfigure);
    TicketBalance(s, s', t, s'.threads[t].pc, [s'.trace[|s.trace|]], x);
  }

  /** A step of a thread that keeps its own id, and replies to nobody. */
  lemma KeptTicket(s: State, s': State, t: Tid, pc: Pc, es: seq<Event>, x: Ticket)
    requires TicketFits(s, x) && t in s.threads
    requires s'.threads == Moved(s, t, pc).threads && s'.coordinator == s.coordinator
    requires HoldsOwnId(s.threads[t].pc) && HoldsOwnId(pc)
    requires |es| <= 1 && s'.trace == s.trace + es && (es != [] ==> es[0].Committed?)
    ensures TicketFits(s', x)
  {
    hide TicketFits;
    TicketBalance(s, s', t, pc, es, x);
  }

  // ----- Pairs of id and key -----

  lemma PairBalance(s: State, s': State, t: Tid, pc: Pc, es: seq<Event>, id: RequestId, key: RefreshKey)
    requires PairFits(s, id, key) && t in s.threads
    requires s'.threads == Moved(s, t, pc).threads
    requires |es| <= 1 && s'.trace == s.trace + es
    requires CountAll(es, Joins(id, key)) + WeightOf(s.threads[t], OwesPair(id, key))
             + PairCount(s.coordinator, id, key)
          == CountAll(es, Answers(id, key)) + WeightOf(s.threads[t].(pc := pc), OwesPair(id, key))
             + PairCount(s'.coordinator, id, key)
    ensures PairFits(s', id, key)
  {
    SumSet(s.threads, t, s.threads[t].(pc := pc), OwesPair(id, key));
    CountExtend(s.trace, es, Joins(id, key));
    CountExtend(s.trace, es, Answers(id, key));
  }

  lemma PairFitsKept(s: State, a: Action, id: RequestId, key: RefreshKey)
    requires PairFits(s, id, key) && Enabled(s, a)
    ensures PairFits(Apply(s, a), id, key)
  {
    match a {
      case Arrive(t, request) =>
        SumSet(s.threads, t, Thread(request, Loading), OwesPair(id, key));
        CountAppend(s.trace, Received(TicketOf(request)), Joins(id, key));
        CountAppend(s.trace, Received(TicketOf(request)), Answers(id, key));
      case Limit(t, step) => LimitPair(s, t, step, id, key);
      case Loop(t, step) => LoopPair(s, t, step, id, key);
      case Scan(t, step) => ScanPair(s, t, step, id, key);
      case Reply(t, step) => ReplyPair(s, t, step, id, key);
      case Config(t, step) => ConfigPair(s, t, step, id, key);
    }
  }

  lemma LimitPair(s: State, t: Tid, step: LimitStep, id: RequestId, key: RefreshKey)
    requires PairFits(s, id, key) && t in s.threads && LimitEnabled(s, t, step)
    ensures PairFits(LimitApply(s, t, step), id, key)
  {
    hide PairFits;
    var s' := LimitApply(s, t, step);
    PairBalance(s, s', t, s'.threads[t].pc, s'.trace[|s.trace|..], id, key);
  }

  lemma LoopPair(s: State, t: Tid, step: LoopStep, id: RequestId, key: RefreshKey)
    requires PairFits(s, id, key) && t in s.threads && LoopEnabled(s, t, step)
    ensures PairFits(LoopApply(s, t, step), id, key)
  {
    hide PairFits;
    if step.Register? {
      RegisterPair(s, t, step.todo, id, key);
    } else {
      var s' := LoopApply(s, t, step);
      PairBalance(s, s', t, s'.threads[t].pc, s'.trace[|s.trace|..], id, key);
    }
  }

  lemma RegisterPair(s: State, t: Tid, todo: nat, id: RequestId, key: RefreshKey)
    requires PairFits(s, id, key) && t in s.threads && LoopEnabled(s, t, Register(todo))
    ensures PairFits(LoopApply(s, t, Register(todo)), id, key)
  {
    hide PairFits;
    var s' := LoopApply(s, t, Register(todo));
    PairBalance(s, s', t, s'.threads[t].pc, s'.trace[|s.trace|..], id, key);
  }

  lemma ScanPair(s: State, t: Tid, step: ScanStep, id: RequestId, key: RefreshKey)
    requires PairFits(s, id, key) && t in s.threads && ScanEnabled(s, t, step)
    ensures PairFits(ScanApply(s, t, step), id, key)
  {
    hide PairFits;
    var s' := ScanApply(s, t, step);
    PairBalance(s, s', t, s'.threads[t].pc, s'.trace[|s.trace|..], id, key);
  }

  lemma ConfigPair(s: State, t: Tid, step: ConfigureStep, id: RequestId, key: RefreshKey)
    requires PairFits(s, id, key) && t in s.threads && ConfigEnabled(s, t, step)
    ensures PairFits(ConfigApply(s, t, step), id, key)
  {
    hide PairFits;
    var s' := ConfigApply(s, t, step);
    PairBalance(s, s', t, s'.threads[t].pc, s'.trace[|s.trace|..], id, key);
  }

  lemma ReplyPair(s: State, t: Tid, step: ReplyStep, id: RequestId, key: RefreshKey)
    requires PairFits(s, id, key) && t in s.threads && ReplyEnabled(s, t, step)
    ensures PairFits(ReplyApply(s, t, step), id, key)
  {
    match step {
      case ReplyOne => ReplyOnePair(s, t, id, key);
      case Complete(telemetry) => CompletePair(s, t, telemetry, id, key);
      case _ => DrainPair(s, t, step, id, key);
    }
  }

  lemma ReplyOnePair(s: State, t: Tid, id: RequestId, key: RefreshKey)
    requires PairFits(s, id, key) && t in s.threads && ReplyEnabled(s, t, ReplyOne)
    ensures PairFits(ReplyApply(s, t, ReplyOne), id, key)
  {
    var pc := s.threads[t].pc;
    assert pc.batch == [pc.batch[0]] + pc.batch[1..];
    PairBalance(s, ReplyApply(s, t, ReplyOne), t, pc.(batch := pc.batch[1..]),
                [Answered(pc.batch[0], pc.key, pc.ok)], id, key);
  }

  lemma DrainPair(s: State, t: Tid, step: ReplyStep, id: RequestId, key: RefreshKey)
    requires PairFits(s, id, key) && t in s.threads && ReplyEnabled(s, t, step)
    requires step.BeginCompletion? || step.Drain? || step.EndBatch?
    ensures PairFits(ReplyApply(s, t, step), id, key)
  {
    hide PairFits;
    var s' := ReplyApply(s, t, step);
    assert s'.trace == s.trace + [];
    PairBalance(s, s', t, s'.threads[t].pc, [], id, key);
  }

  lemma CompletePair(s: State, t: Tid, telemetry: nat, id: RequestId, key: RefreshKey)
    requires PairFits(s, id, key) && t in s.threads && ReplyEnabled(s, t, Complete(telemetry))
    ensures PairFits(CompleteEffect(s, t, s.threads[t].pc, telemetry), id, key)
  {
    var s' := CompleteEffect(s, t, s.threads[t].pc, telemetry);
    assert s'.trace == s.trace + [];
    if s.coordinator.ids == [] {
      SumWoken(s.threads, OwesPair(id, key));
      PairBalance(AllWoken(s), s', t, s'.threads[t].pc, [], id, key);
    } else {
      PairBalance(s, s', t, s'.threads[t].pc, [], id, key);
    }
  }

  lemma RepliesFitKept(s: State, a: Action)
    requires OwnerFits(s) && RepliesFit(s) && Enabled(s, a)
    ensures RepliesFit(Apply(s, a))
  {
    PermitsFitKept(s, a);
    forall x ensures TicketFits(Apply(s, a), x) { TicketFitsKept(s, a, x); }
    forall id, key ensures PairFits(Apply(s, a), id, key) { PairFitsKept(s, a, id, key); }
  }
}
