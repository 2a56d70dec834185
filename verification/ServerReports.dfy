/** Every report that a scan starts is sent, silenced because its generation is no
    longer the current one, given up, or still under way. */
module ServerReports {
  import opened Basics
  import opened Coordinator
  import opened ServerModel
  import opened ServerRuns

  datatype Fate = Started | Sent | Silenced | GivenUp

  /** This step does that to a report of thread `t`. */
  predicate Meets(s: State, a: Action, t: Tid, kind: ReportKind, fate: Fate) {
    a.Scan? && a.t == t &&
    match fate
    case Started => a.scan == StartReport(kind)
    case Sent => a.scan == EmitReport(kind)
    case Silenced =>
      && a.scan == CheckReport(kind)
      && t in s.threads && s.threads[t].pc.Reporting? && s.threads[t].pc.key.generation != s.generation
    case GivenUp => a.scan.QuitReport? && a.scan.kind == kind
  }

  function Met(s: State, a: Action, t: Tid, kind: ReportKind, fate: Fate): nat {
    if Meets(s, a, t, kind, fate) then 1 else 0
  }

  /** How many reports have met this fate in the first `n` steps. */
  ghost function HowMany(states: seq<State>, actions: seq<Action>, n: nat, t: Tid, kind: ReportKind, fate: Fate): nat
    requires n <= |actions| < |states|
  {
    if n == 0 then 0
    else HowMany(states, actions, n - 1, t, kind, fate) + Met(states[n - 1], actions[n - 1], t, kind, fate)
  }

  function UnderWay(s: State, t: Tid, kind: ReportKind): nat {
    if t in s.threads && s.threads[t].pc.Reporting? then
      var lane := s.threads[t].pc.crew.Of(kind);
      lane.waiting + lane.outside + lane.locked + lane.approved
    else 0
  }

  ghost predicate Balanced(s: State, a: Action, t: Tid, kind: ReportKind) {
    Enabled(s, a) &&
    UnderWay(s, t, kind) + Met(s, a, t, kind, Started) ==
    UnderWay(Apply(s, a), t, kind)
    + Met(s, a, t, kind, Sent) + Met(s, a, t, kind, Silenced) + Met(s, a, t, kind, GivenUp)
  }

  lemma ReportBalanced(s: State, t: Tid, step: ScanStep, kind: ReportKind)
    requires Enabled(s, Scan(t, step)) && IsReportStep(step)
    ensures Balanced(s, Scan(t, step), t, kind)
  {
  }

  lemma ScanBalanced(s: State, t: Tid, step: ScanStep, kind: ReportKind)
    requires Enabled(s, Scan(t, step)) && !IsReportStep(step)
    ensures Balanced(s, Scan(t, step), t, kind)
  {
    hide SyncStepEffect, ScopeOf;
  }

  /** Only the scan steps of a thread change what it has under way. */
  lemma LimitBalanced(s: State, t: Tid, step: LimitStep, kind: ReportKind)
    requires Enabled(s, Limit(t, step))
    ensures Balanced(s, Limit(t, step), t, kind)
  {
  }

  lemma LoopBalanced(s: State, t: Tid, step: LoopStep, kind: ReportKind)
    requires Enabled(s, Loop(t, step))
    ensures Balanced(s, Loop(t, step), t, kind)
  {
  }

  lemma ReplyBalanced(s: State, t: Tid, step: ReplyStep, kind: ReportKind)
    requires Enabled(s, Reply(t, step))
    ensures Balanced(s, Reply(t, step), t, kind)
  {
  }

  lemma ConfigBalanced(s: State, t: Tid, step: ConfigureStep, kind: ReportKind)
    requires Enabled(s, Config(t, step))
    ensures Balanced(s, Config(t, step), t, kind)
  {
    hide NextConfiguration, NoReader, NoConfigurer;
  }

  lemma OtherBalanced(s: State, a: Action, t: Tid, kind: ReportKind)
    requires Enabled(s, a) && a.t != t
    ensures Balanced(s, a, t, kind)
  {
    OthersStay(s, a, t);
    hide Enabled, Apply;
  }

  lemma StepBalanced(s: State, a: Action, t: Tid, kind: ReportKind)
    requires Enabled(s, a)
    ensures Balanced(s, a, t, kind)
  {
    if a.t != t {
      OtherBalanced(s, a, t, kind);
    } else if a.Arrive? {
      assert UnderWay(Apply(s, a), t, kind) == 0;
    } else {
      hide *;
      match a
      case Limit(_, step) => LimitBalanced(s, t, step, kind);
      case Loop(_, step) => LoopBalanced(s, t, step, kind);
      case Scan(_, step) =>
        if IsReportStep(step) {
          ReportBalanced(s, t, step, kind);
        } else {
          ScanBalanced(s, t, step, kind);
        }
      case Reply(_, step) => ReplyBalanced(s, t, step, kind);
      case Config(_, step) => ConfigBalanced(s, t, step, kind);
    }
  }

  /** No report is lost without a reason: each one started was sent, or found its
      generation stale, or was given up, or is still under way. */
  lemma {:induction false} ReportsAccounted(states: seq<State>, actions: seq<Action>, n: nat, t: Tid, kind: ReportKind)
    requires Run(states, actions) && n <= |actions|
    ensures HowMany(states, actions, n, t, kind, Started) ==
            HowMany(states, actions, n, t, kind, Sent) + HowMany(states, actions, n, t, kind, Silenced)
            + HowMany(states, actions, n, t, kind, GivenUp) + UnderWay(states[n], t, kind)
  {
    if n > 0 {
      hide Enabled, Apply, Met, UnderWay;
      ReportsAccounted(states, actions, n - 1, t, kind);
      StepBalanced(states[n - 1], actions[n - 1], t, kind);
    } else {
      assert UnderWay(states[0], t, kind) == 0;
    }
  }

  // ----- The lock of an index -----

  /** The reports past the lock of their index. */
  function Inside(s: State, t: Tid, kind: ReportKind): nat {
    if t in s.threads && s.threads[t].pc.Reporting? then
      var lane := s.threads[t].pc.crew.Of(kind);
      lane.outside + lane.locked + lane.approved
    else 0
  }

  lemma ReportInside(s: State, t: Tid, step: ScanStep, kind: ReportKind)
    requires Enabled(s, Scan(t, step)) && IsReportStep(step) && kind != Events && Inside(s, t, kind) <= 1
    ensures Inside(Apply(s, Scan(t, step)), t, kind) <= 1
  {
  }

  /** Whatever else its thread does, it has no report under way then. */
  lemma NothingUnderWay(s: State, a: Action, kind: ReportKind)
    requires Enabled(s, a) && !(a.Scan? && IsReportStep(a.scan))
    ensures UnderWay(s, a.t, kind) == 0
  {
    hide CompletionBegun, Drained, CompletedIfEmpty, NoReader, NoConfigurer;
  }

  lemma NoneMet(s: State, a: Action, t: Tid, kind: ReportKind)
    requires !(a.Scan? && IsReportStep(a.scan))
    ensures Met(s, a, t, kind, Started) == 0
  {
  }

  lemma InsideUnderWay(s: State, t: Tid, kind: ReportKind)
    ensures Inside(s, t, kind) <= UnderWay(s, t, kind)
  {
  }

  lemma OtherInside(s: State, a: Action, t: Tid, kind: ReportKind)
    requires Enabled(s, a) && a.t != t
    ensures Inside(Apply(s, a), t, kind) == Inside(s, t, kind)
  {
    OthersStay(s, a, t);
    hide Enabled, Apply;
  }

  lemma StepInside(s: State, a: Action, t: Tid, kind: ReportKind)
    requires Enabled(s, a) && kind != Events && Inside(s, t, kind) <= 1
    ensures Inside(Apply(s, a), t, kind) <= 1
  {
    hide Enabled, Apply, Met, UnderWay, Inside;
    if a.t != t {
      OtherInside(s, a, t, kind);
    } else if a.Scan? && IsReportStep(a.scan) {
      ReportInside(s, t, a.scan, kind);
    } else {
      NothingUnderWay(s, a, kind);
      NoneMet(s, a, t, kind);
      StepBalanced(s, a, t, kind);
      InsideUnderWay(Apply(s, a), t, kind);
    }
  }

  /** At most one report of an index is past its lock at a time. */
  lemma {:induction false} IndexHeldOnce(states: seq<State>, actions: seq<Action>, n: nat, t: Tid, kind: ReportKind)
    requires Run(states, actions) && n <= |actions| && kind != Events
    ensures Inside(states[n], t, kind) <= 1
  {
    if n > 0 {
      hide Enabled, Apply, Inside;
      IndexHeldOnce(states, actions, n - 1, t, kind);
      StepInside(states[n - 1], actions[n - 1], t, kind);
    }
  }

  // ----- What a scan starts -----

  ghost function AllStarted(states: seq<State>, actions: seq<Action>, n: nat, t: Tid): nat
    requires n <= |actions| < |states|
  {
    HowMany(states, actions, n, t, Installations, Started) + HowMany(states, actions, n, t, Managers, Started)
    + HowMany(states, actions, n, t, Events, Started)
  }

  /** After `begun` reports of a scan that reports `todo` times while it discovers, and
      twice more after its sync. */
  predicate Planned(pc: Pc, todo: nat, begun: int) {
    match pc
    case Reporting(_, left, _, Discovery) => begun + left == todo
    case SyncChecking(_) => begun == todo
    case Syncing(_, _, _) => begun == todo
    case Reporting(_, left, _, Merge) => begun + left == todo + 2
    case _ => false
  }

  lemma PlannedStep(s: State, t: Tid, step: ScanStep, todo: nat, begun: int)
    requires Enabled(s, Scan(t, step)) && Planned(s.threads[t].pc, todo, begun)
    requires !step.EndScan? && !step.Panic?
    ensures Planned(Apply(s, Scan(t, step)).threads[t].pc, todo, begun + if step.StartReport? then 1 else 0)
  {
    hide ReportEnabled, LaneAfter, SyncStepEffect, ScopeOf;
  }

  lemma PlannedScans(s: State, a: Action, todo: nat, begun: int)
    requires Enabled(s, a) && !a.Arrive? && Planned(s.threads[a.t].pc, todo, begun)
    ensures a.Scan?
  {
    hide CompletionBegun, Drained, CompletedIfEmpty, NoReader, NoConfigurer;
  }

  lemma StartPlanned(s: State, t: Tid, todo: nat)
    requires Enabled(s, Loop(t, Register(todo))) && s.coordinator.Idle?
    ensures Planned(Apply(s, Loop(t, Register(todo))).threads[t].pc, todo, 0)
  {
  }

  predicate StartsReport(a: Action, t: Tid) {
    a.Scan? && a.t == t && a.scan.StartReport?
  }

  lemma OneMoreStarted(states: seq<State>, actions: seq<Action>, n: nat, t: Tid)
    requires n < |actions| < |states|
    ensures AllStarted(states, actions, n + 1, t) ==
            AllStarted(states, actions, n, t) + if StartsReport(actions[n], t) then 1 else 0
  {
    var a := actions[n];
    if StartsReport(a, t) {
      match a.scan.kind
      case Installations => assert a.scan == StartReport(Installations);
      case Managers => assert a.scan == StartReport(Managers);
      case Events => assert a.scan == StartReport(Events);
    }
  }

  lemma {:induction false} PlannedAt(states: seq<State>, actions: seq<Action>, start: nat, n: nat, t: Tid, todo: nat)
    requires Run(states, actions) && start < n <= |actions|
    requires actions[start] == Loop(t, Register(todo)) && states[start].coordinator.Idle?
    requires forall j | start < j < n :: actions[j] != Scan(t, EndScan) && actions[j] != Scan(t, Panic)
    ensures t in states[n].threads
    ensures Planned(states[n].threads[t].pc, todo,
                    AllStarted(states, actions, n, t) - AllStarted(states, actions, start, t))
  {
    hide Enabled, Apply, Planned, AllStarted, Init;
    var (s, a) := (states[n - 1], actions[n - 1]);
    assert Enabled(s, a) && states[n] == Apply(s, a);
    OneMoreStarted(states, actions, n - 1, t);
    if n == start + 1 {
      OwnRequest(s, a);
      StartPlanned(s, t, todo);
    } else {
      PlannedAt(states, actions, start, n - 1, t, todo);
      var begun := AllStarted(states, actions, n - 1, t) - AllStarted(states, actions, start, t);
      if a.t == t {
        OwnRequest(s, a);
        NotArriving(s, a);
        PlannedScans(s, a, todo, begun);
        PlannedStep(s, t, a.scan, todo, begun);
      } else {
        OthersStay(s, a, t);
        PlannedStays(s.threads[t], states[n].threads[t], todo, begun);
      }
    }
  }

  lemma NotArriving(s: State, a: Action)
    requires Enabled(s, a) && a.t in s.threads
    ensures !a.Arrive?
  {
  }

  lemma PlannedStays(before: Thread, after: Thread, todo: nat, begun: int)
    requires Planned(before.pc, todo, begun) && Stays(before, after)
    ensures Planned(after.pc, todo, begun)
  {
  }

  lemma EndsMerged(s: State, t: Tid)
    requires Enabled(s, Scan(t, EndScan))
    ensures s.threads[t].pc.Reporting? && s.threads[t].pc.part.Merge? && s.threads[t].pc.todo == 0
    ensures forall kind :: UnderWay(s, t, kind) == 0
  {
  }

  /** A scan that ends without a panic has started all its reports, those of the
      discovery and the two after the sync, and none of them is still under way. */
  lemma ScanReportsAll(states: seq<State>, actions: seq<Action>, start: nat, end: nat, t: Tid, todo: nat)
    requires Run(states, actions) && start < end < |actions|
    requires actions[start] == Loop(t, Register(todo)) && states[start].coordinator.Idle?
    requires actions[end] == Scan(t, EndScan)
    requires forall j | start < j < end :: actions[j] != Scan(t, EndScan) && actions[j] != Scan(t, Panic)
    ensures AllStarted(states, actions, end, t) == AllStarted(states, actions, start, t) + todo + 2
    ensures forall kind :: UnderWay(states[end], t, kind) == 0
  {
    PlannedAt(states, actions, start, end, t, todo);
    EndsMerged(states[end], t);
    hide Enabled, Apply, AllStarted, UnderWay;
  }

  // ----- Notifications -----

  function Notifications(trace: Trace, generation: nat): nat {
    if trace == [] then 0
    else Notifications(trace[..|trace| - 1], generation)
         + if trace[|trace| - 1] == Notified(generation) then 1 else 0
  }

  /** A report that belongs to a scan of this generation goes out. */
  predicate Sends(s: State, a: Action, generation: nat) {
    && a.Scan? && a.scan.EmitReport? && a.t in s.threads
    && s.threads[a.t].pc.Reporting? && s.threads[a.t].pc.key.generation == generation
  }

  ghost function Sendings(states: seq<State>, actions: seq<Action>, n: nat, generation: nat): nat
    requires n <= |actions| < |states|
  {
    if n == 0 then 0
    else Sendings(states, actions, n - 1, generation)
         + if Sends(states[n - 1], actions[n - 1], generation) then 1 else 0
  }

  lemma StepNotifies(s: State, a: Action, generation: nat) returns (es: seq<Event>)
    requires Enabled(s, a)
    ensures |es| <= 1 && Apply(s, a).trace == s.trace + es
    ensures es == [Notified(generation)] <==> Sends(s, a, generation)
  {
    hide ReportEnabled, Reported, SyncStepEffect, ScopeOf, NextConfiguration, NoReader, NoConfigurer;
    es := Apply(s, a).trace[|s.trace|..];
  }

  /** The client gets one notification for each report that goes out, and no other. */
  lemma {:induction false} EveryReportNotified(states: seq<State>, actions: seq<Action>, n: nat, generation: nat)
    requires Run(states, actions) && n <= |actions|
    ensures Notifications(states[n].trace, generation) == Sendings(states, actions, n, generation)
  {
    hide Enabled, Apply, Sends;
    if n > 0 {
      EveryReportNotified(states, actions, n - 1, generation);
      var es := StepNotifies(states[n - 1], actions[n - 1], generation);
      NotificationsAppend(states[n - 1].trace, es, generation);
    }
  }

  lemma NotificationsAppend(trace: Trace, es: seq<Event>, generation: nat)
    requires |es| <= 1
    ensures Notifications(trace + es, generation) ==
            Notifications(trace, generation) + if es == [Notified(generation)] then 1 else 0
  {
    if es == [] {
      assert trace + es == trace;
    } else {
      assert (trace + es)[..|trace|] == trace;
    }
  }
}
