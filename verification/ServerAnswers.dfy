/** What the replies of a run mean, stated on the actions that went before them. */
module ServerAnswers {
  import opened Basics
  import opened Coordinator
  import opened ServerModel
  import opened ServerOwner
  import opened ServerRuns
  import opened ServerTheorems

  // ----- Steps a later reply goes back to -----

  /** The thread is about to register this key, or owns the scan of this key. */
  predicate UnderKey(s: State, t: Tid, key: RefreshKey) {
    t in s.threads && (s.threads[t].pc.Registering? || Owns(s.threads[t].pc)) && s.threads[t].pc.key == key
  }

  /** The thread reads the counter. */
  predicate Reads(a: Action, t: Tid) {
    a == Limit(t, Load) || a == Limit(t, CasFail)
  }

  predicate Registers(a: Action, t: Tid) {
    a.Loop? && a.t == t && a.loop.Register?
  }

  /** The thread takes the configuration whose generation its key carries. */
  predicate Snapshots(s: State, a: Action, t: Tid, key: RefreshKey) {
    a == Loop(t, Snapshot) && key.generation == s.generation
  }

  /** The thread registers this key and starts a scan. */
  predicate Starts(s: State, a: Action, t: Tid, key: RefreshKey) {
    Registers(a, t) && s.coordinator.Idle? && UnderKey(s, t, key)
  }

  /** The thread registers while a scan of its own key has at least 256 ids. */
  predicate FindsFull(s: State, a: Action, t: Tid) {
    Registers(a, t) && !s.coordinator.Idle? && UnderKey(s, t, s.coordinator.key) && |s.coordinator.ids| >= 256
  }

  predicate EndsScan(a: Action, t: Tid) {
    a == Scan(t, EndScan) || a == Scan(t, Panic)
  }

  // ----- Why a thread is where it is -----

  /** The step of thread `t`, taken at `s`, that decided where it is now. */
  predicate Caused(s: State, a: Action, t: Tid, th: Thread) {
    match th.pc
    case Trying(observed) => Reads(a, t) && observed == s.active
    case TurnedAway(TooManyActive) => Reads(a, t) && s.active >= 32
    case TurnedAway(CouldNotStart) => a == Limit(t, SpawnFail)
    case Registering(key) =>
      Snapshots(s, a, t, key) && th.request.Refresh? && key.options == th.request.options
    case Rejected => FindsFull(s, a, t)
    case Reporting(key, _, _, part) =>
      if part.Telemetry? then a == Scan(t, EndScan) && UnderKey(s, t, key) else Starts(s, a, t, key)
    case SyncChecking(key) => Starts(s, a, t, key)
    case Syncing(key, _, _) => Starts(s, a, t, key)
    case Ending(key, ok) => a == Scan(t, if ok then EndScan else Panic) && UnderKey(s, t, key)
    case Draining(key, ok) => a == Scan(t, if ok then EndScan else Panic) && UnderKey(s, t, key)
    case Replying(key, ok, _) => a == Scan(t, if ok then EndScan else Panic) && UnderKey(s, t, key)
    case Checking(key, ok) => a == Scan(t, if ok then EndScan else Panic) && UnderKey(s, t, key)
    case ConfigCommitting(_, _) => a == Config(t, ApplyLocators(true))
    case ConfigRollingBack(_) => a == Config(t, ApplyLocators(false))
    case ConfigReplying(ok) => a == Config(t, if ok then Commit else Rollback)
    case _ => false
  }

  predicate HasCause(pc: Pc) {
    || pc.Trying? || pc.TurnedAway? || pc.Registering? || pc.Rejected?
    || pc.Reporting? || Owns(pc)
    || pc.ConfigCommitting? || pc.ConfigRollingBack? || pc.ConfigReplying?
  }

  /** A step of the thread itself either decides where it is now or keeps every
      reason there was. */
  ghost predicate KeepsCause(s: State, a: Action) {
    Enabled(s, a) &&
    var th' := Apply(s, a).threads[a.t];
    HasCause(th'.pc) && !Caused(s, a, a.t, th') ==>
      a.t in s.threads && HasCause(s.threads[a.t].pc) &&
      forall s0, a0 :: Caused(s0, a0, a.t, s.threads[a.t]) ==> Caused(s0, a0, a.t, th')
  }

  lemma LimitCause(s: State, t: Tid, step: LimitStep)
    requires Enabled(s, Limit(t, step))
    ensures KeepsCause(s, Limit(t, step))
  {
  }

  lemma LoopCause(s: State, t: Tid, step: LoopStep)
    requires Enabled(s, Loop(t, step))
    ensures KeepsCause(s, Loop(t, step))
  {
  }

  lemma ScanCause(s: State, t: Tid, step: ScanStep)
    requires Enabled(s, Scan(t, step))
    ensures KeepsCause(s, Scan(t, step))
  {
    hide ReportEnabled, LaneAfter, SyncStepEffect, ScopeOf;
  }

  lemma ReplyCause(s: State, t: Tid, step: ReplyStep)
    requires Enabled(s, Reply(t, step))
    ensures KeepsCause(s, Reply(t, step))
  {
    hide UnderKey, CompletionBegun, Drained;
  }

  lemma ConfigCause(s: State, t: Tid, step: ConfigureStep)
    requires Enabled(s, Config(t, step))
    ensures KeepsCause(s, Config(t, step))
  {
    hide NextConfiguration, NoReader, NoConfigurer, UnderKey;
  }

  lemma ArriveCause(s: State, t: Tid, request: Request)
    requires Enabled(s, Arrive(t, request))
    ensures KeepsCause(s, Arrive(t, request))
  {
  }

  lemma StepCause(s: State, a: Action)
    requires Enabled(s, a)
    ensures KeepsCause(s, a)
  {
    hide *;
    match a
    case Arrive(t, request) => ArriveCause(s, t, request);
    case Limit(t, step) => LimitCause(s, t, step);
    case Loop(t, step) => LoopCause(s, t, step);
    case Scan(t, step) => ScanCause(s, t, step);
    case Reply(t, step) => ReplyCause(s, t, step);
    case Config(t, step) => ConfigCause(s, t, step);
  }

  lemma {:induction false} CauseAt(states: seq<State>, actions: seq<Action>, n: nat, t: Tid) returns (k: nat)
    requires Run(states, actions) && n <= |actions| && t in states[n].threads && HasCause(states[n].threads[t].pc)
    ensures k < n && Caused(states[k], actions[k], t, states[n].threads[t])
  {
    hide Enabled, Apply, Caused;
    var (s, a) := (states[n - 1], actions[n - 1]);
    if a.t == t {
      StepCause(s, a);
      if Caused(s, a, t, states[n].threads[t]) {
        k := n - 1;
      } else {
        k := CauseAt(states, actions, n - 1, t);
      }
    } else {
      OthersStay(s, a, t);
      k := CauseAt(states, actions, n - 1, t);
    }
  }

  // ----- A thread runs one scan in its life -----

  predicate PastScan(pc: Pc) {
    || pc.Ending? || Completes(pc) || (pc.Reporting? && pc.part.Telemetry?) || pc.Leaving? || pc.Gone?
  }

  lemma ScanEndsPast(s: State, t: Tid, step: ScanStep)
    requires Enabled(s, Scan(t, step))
    ensures PastScan(s.threads[t].pc) || EndsScan(Scan(t, step), t) ==>
              PastScan(Apply(s, Scan(t, step)).threads[t].pc)
    ensures PastScan(s.threads[t].pc) ==> !EndsScan(Scan(t, step), t)
  {
    hide ReportEnabled, LaneAfter, SyncStepEffect, ScopeOf;
  }

  lemma OtherStaysPast(s: State, a: Action)
    requires Enabled(s, a) && !a.Arrive? && !a.Scan? && PastScan(s.threads[a.t].pc)
    ensures PastScan(Apply(s, a).threads[a.t].pc)
  {
    hide CompletionBegun, Drained, NextConfiguration, NoReader, NoConfigurer;
  }

  lemma StaysPast(s: State, a: Action, t: Tid)
    requires Enabled(s, a) && t in s.threads && PastScan(s.threads[t].pc)
    ensures t in Apply(s, a).threads && PastScan(Apply(s, a).threads[t].pc) && !EndsScan(a, t)
  {
    if a.t != t {
      OthersStay(s, a, t);
    } else {
      OwnRequest(s, a);
      assert !a.Arrive?;
      hide Enabled, Apply, PastScan;
      if a.Scan? {
        ScanEndsPast(s, t, a.scan);
      } else {
        OtherStaysPast(s, a);
      }
    }
  }

  lemma {:induction false} PastAfter(states: seq<State>, actions: seq<Action>, j: nat, n: nat, t: Tid)
    requires Run(states, actions) && j < n <= |actions| && EndsScan(actions[j], t)
    ensures t in states[n].threads && PastScan(states[n].threads[t].pc)
  {
    if n == j + 1 {
      OwnRequest(states[j], actions[j]);
      ScanEndsPast(states[j], t, actions[j].scan);
    } else {
      hide Enabled, Apply, PastScan, EndsScan;
      PastAfter(states, actions, j, n - 1, t);
      StaysPast(states[n - 1], actions[n - 1], t);
    }
  }

  lemma ScanEndsOnce(states: seq<State>, actions: seq<Action>, j: nat, k: nat, t: Tid)
    requires Run(states, actions) && j < |actions| && k < |actions|
    requires EndsScan(actions[j], t) && EndsScan(actions[k], t)
    ensures j == k
  {
    hide Enabled, Apply, PastScan, EndsScan;
    if j < k {
      PastAfter(states, actions, j, k, t);
      StaysPast(states[k], actions[k], t);
    } else if k < j {
      PastAfter(states, actions, k, j, t);
      StaysPast(states[j], actions[j], t);
    }
  }

  // ----- Refreshes -----

  lemma ScanStarted(states: seq<State>, actions: seq<Action>, end: nat, t: Tid, key: RefreshKey) returns (start: nat)
    requires Run(states, actions) && end < |actions| && EndsScan(actions[end], t) && UnderKey(states[end], t, key)
    ensures start < end && Starts(states[start], actions[start], t, key)
  {
    assert Enabled(states[end], actions[end]);
    start := CauseAt(states, actions, end, t);
  }

  lemma AnswerLogged(s: State, a: Action, e: Event)
    requires Logs(s, a, e) && e.Answered?
    ensures a.t in s.threads && a == Reply(a.t, ReplyOne)
    ensures s.threads[a.t].pc.Replying? && s.threads[a.t].pc.key == e.key && s.threads[a.t].pc.ok == e.ok
  {
    hide ReportEnabled, Reported, SyncStepEffect, ScopeOf, NextConfiguration, NoReader, NoConfigurer;
    var es := [e];
    assert Apply(s, a).trace[|s.trace|] == e;
  }

  /** Each answer comes from the thread that registered its key and started the scan,
      after the one step that ended that scan; it is a result if that step was the
      normal end and an error if it was a panic. */
  lemma AnswerMeansScan(states: seq<State>, actions: seq<Action>, p: nat)
    returns (t: Tid, start: nat, end: nat, i: nat)
    requires Run(states, actions) && p < |states[|actions|].trace| && states[|actions|].trace[p].Answered?
    ensures start < end < i < |actions| && Logs(states[i], actions[i], states[|actions|].trace[p])
    ensures actions[i].t == t && Starts(states[start], actions[start], t, states[|actions|].trace[p].key)
    ensures states[|actions|].trace[p].ok <==> actions[end] == Scan(t, EndScan)
    ensures !states[|actions|].trace[p].ok <==> actions[end] == Scan(t, Panic)
    ensures forall j | 0 <= j < |actions| && EndsScan(actions[j], t) :: j == end
  {
    var e := states[|actions|].trace[p];
    i := LoggedAt(states, actions, |actions|, p);
    AnswerLogged(states[i], actions[i], e);
    hide Enabled, Apply, Logs;
    t := actions[i].t;
    end := CauseAt(states, actions, i, t);
    start := ScanStarted(states, actions, end, t, e.key);
    forall j | 0 <= j < |actions| && EndsScan(actions[j], t) ensures j == end {
      ScanEndsOnce(states, actions, j, end, t);
    }
  }

  /** Without a panic no refresh is answered with an error. */
  lemma NoPanicNoError(states: seq<State>, actions: seq<Action>)
    requires Run(states, actions) && forall i | 0 <= i < |actions| :: !(actions[i].Scan? && actions[i].scan.Panic?)
    ensures forall p | 0 <= p < |states[|actions|].trace| && states[|actions|].trace[p].Answered? ::
              states[|actions|].trace[p].ok
  {
    forall p | 0 <= p < |states[|actions|].trace| && states[|actions|].trace[p].Answered?
      ensures states[|actions|].trace[p].ok
    {
      var t, start, end, i := AnswerMeansScan(states, actions, p);
      assert !(actions[end].Scan? && actions[end].scan.Panic?);
    }
  }

  lemma JoinLogged(s: State, a: Action, e: Event)
    requires Logs(s, a, e) && e.Joining?
    ensures Registers(a, a.t) && a.t in s.threads && s.threads[a.t].pc.Registering?
    ensures s.threads[a.t].pc.key == e.key && s.threads[a.t].request.id == e.id
  {
    hide ReportEnabled, Reported, SyncStepEffect, ScopeOf, NextConfiguration, NoReader, NoConfigurer;
    assert Apply(s, a).trace[|s.trace|] == e;
  }

  /** An id joins under the options its thread arrived with and the generation that
      this thread read. */
  lemma JoinedUnderOwnOptions(states: seq<State>, actions: seq<Action>, p: nat)
    returns (t: Tid, arrival: nat, snapshot: nat, i: nat)
    requires Run(states, actions) && p < |states[|actions|].trace| && states[|actions|].trace[p].Joining?
    ensures arrival < |actions| && snapshot < i < |actions| && Logs(states[i], actions[i], states[|actions|].trace[p])
    ensures actions[i].t == t
    ensures var Joining(id, key) := states[|actions|].trace[p];
            && actions[arrival] == Arrive(t, Refresh(id, key.options))
            && actions[snapshot] == Loop(t, Snapshot) && key.generation == states[snapshot].generation
  {
    var e := states[|actions|].trace[p];
    i := LoggedAt(states, actions, |actions|, p);
    JoinLogged(states[i], actions[i], e);
    hide Enabled, Apply, Logs;
    t := actions[i].t;
    snapshot := CauseAt(states, actions, i, t);
    arrival := ArrivedAt(states, actions, i, t);
  }

  // ----- Refusals -----

  lemma RefusalLogged(s: State, a: Action, e: Event)
    requires Logs(s, a, e) && e.Refused?
    ensures a.t in s.threads && TicketOf(s.threads[a.t].request) == e.ticket
    ensures if s.threads[a.t].pc.Rejected? then e.refusal.TooManyJoined?
            else s.threads[a.t].pc == TurnedAway(e.refusal)
  {
    hide ReportEnabled, Reported, SyncStepEffect, ScopeOf, NextConfiguration, NoReader, NoConfigurer;
    assert Apply(s, a).trace[|s.trace|] == e;
  }

  /** Every refusal has its reason: 32 requests were active when the thread read the
      counter, or its thread could not be started, or the scan of its own key had 256
      ids when it registered. */
  lemma RefusalHasReason(states: seq<State>, actions: seq<Action>, p: nat) returns (t: Tid, k: nat, i: nat)
    requires Run(states, actions) && p < |states[|actions|].trace| && states[|actions|].trace[p].Refused?
    ensures k < i < |actions| && Logs(states[i], actions[i], states[|actions|].trace[p]) && actions[i].t == t
    ensures t in states[i].threads && TicketOf(states[i].threads[t].request) == states[|actions|].trace[p].ticket
    ensures match states[|actions|].trace[p].refusal
            case TooManyActive => Reads(actions[k], t) && states[k].active == 32
            case CouldNotStart => actions[k] == Limit(t, SpawnFail)
            case TooManyJoined => FindsFull(states[k], actions[k], t) && |states[k].coordinator.ids| == 256
  {
    var e := states[|actions|].trace[p];
    i := LoggedAt(states, actions, |actions|, p);
    RefusalLogged(states[i], actions[i], e);
    t := actions[i].t;
    hide Enabled, Apply, Logs;
    k := CauseAt(states, actions, i, t);
    RunGood(states, actions, k);
  }

  // ----- Configures -----

  lemma ConfigureLogged(s: State, a: Action, e: Event)
    requires Logs(s, a, e) && e.ConfigureAnswered?
    ensures a.t in s.threads && s.threads[a.t].pc == ConfigReplying(e.ok) && s.threads[a.t].request.id == e.id
  {
    hide ReportEnabled, Reported, SyncStepEffect, ScopeOf, NextConfiguration, NoReader, NoConfigurer;
    assert Apply(s, a).trace[|s.trace|] == e;
  }

  /** A configure is answered with success after its commit, and with an error after
      its rollback, which follows a locator's panic. */
  lemma ConfigureAnswerMeans(states: seq<State>, actions: seq<Action>, p: nat)
    returns (t: Tid, apply: nat, end: nat, i: nat)
    requires Run(states, actions) && p < |states[|actions|].trace| && states[|actions|].trace[p].ConfigureAnswered?
    ensures apply < end < i < |actions| && Logs(states[i], actions[i], states[|actions|].trace[p]) && actions[i].t == t
    ensures actions[end] == Config(t, if states[|actions|].trace[p].ok then Commit else Rollback)
    ensures actions[apply] == Config(t, ApplyLocators(states[|actions|].trace[p].ok))
  {
    var e := states[|actions|].trace[p];
    i := LoggedAt(states, actions, |actions|, p);
    ConfigureLogged(states[i], actions[i], e);
    t := actions[i].t;
    end := CauseAt(states, actions, i, t);
    assert Enabled(states[end], actions[end]);
    apply := CauseAt(states, actions, end, t);
  }
}
