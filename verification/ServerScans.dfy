/** What a scan has done by the time it ends: whether it synced, which of its reports
    were sent, and that its telemetry follows the replies. */
module ServerScans {
  import opened Basics
  import opened Coordinator
  import opened ServerModel
  import opened ServerOwner
  import opened ServerRuns
  import opened ServerAnswers

  // ----- The sync -----

  /** The scope of a sync in terms of the options of its refresh: search paths exclude
      every sync, and a kind limits it. */
  predicate ScopeFits(scope: SyncScope, options: RefreshOptions) {
    && (scope.Workspace? <==> options.searchPaths.Some?)
    && (scope.Full? <==> options.searchPaths.None? && options.searchKind.None?)
    && (scope.GlobalFiltered? ==> Some(scope.kind) == options.searchKind)
  }

  /** What a sync leaves in one store, by the options of its refresh. */
  lemma SyncEffect(store: Store, options: RefreshOptions, found: map<Path, string>)
    ensures var scope := ScopeOf(options);
            var after := SyncStepped(SyncStepped(store, scope, found, true), scope, found, false);
            && ScopeFits(scope, options)
            && after.supported == store.supported
            && after.entries ==
               if options.searchPaths.Some? then store.entries
               else if options.searchKind.None? then found
               else if options.searchKind.value in store.supported then store.entries + found
               else store.entries
  {
    assert map[] + found == found;
  }

  /** The thread compares the current generation with that of its key. */
  predicate Checks(a: Action, t: Tid, found: Found) {
    a == Scan(t, CheckSync(found))
  }

  ghost predicate LogsSync(s: State, a: Action, t: Tid, key: RefreshKey, found: Found) {
    && a == Scan(t, EndSync)
    && UnderKey(s, t, key) && s.threads[t].pc.Syncing? && s.threads[t].pc.found == found
    && exists scope :: ScopeFits(scope, key.options) && Logs(s, a, Synced(key.generation, scope, found))
  }

  /** The step that brought a thread into its sync, or past it. */
  ghost predicate Decided(s: State, a: Action, t: Tid, pc: Pc) {
    match pc
    case Syncing(key, found, _) => Checks(a, t, found) && UnderKey(s, t, key) && s.generation == key.generation
    case Reporting(key, _, _, part) =>
      && part.Merge?
      && (|| (exists found :: Checks(a, t, found) && UnderKey(s, t, key) && s.generation != key.generation)
          || (exists found :: LogsSync(s, a, t, key, found)))
    case _ => false
  }

  predicate AtSync(pc: Pc) {
    pc.Syncing? || (pc.Reporting? && pc.part.Merge?)
  }

  ghost predicate KeepsDecision(s: State, a: Action) {
    Enabled(s, a) &&
    var pc' := Apply(s, a).threads[a.t].pc;
    AtSync(pc') && !Decided(s, a, a.t, pc') ==>
      a.t in s.threads && AtSync(s.threads[a.t].pc) &&
      forall s0, a0 :: Decided(s0, a0, a.t, s.threads[a.t].pc) ==> Decided(s0, a0, a.t, pc')
  }

  lemma EndSyncLogs(s: State, t: Tid)
    requires Enabled(s, Scan(t, EndSync))
    ensures LogsSync(s, Scan(t, EndSync), t, s.threads[t].pc.key, s.threads[t].pc.found)
  {
    var pc := s.threads[t].pc;
    var scope := ScopeOf(pc.key.options);
    assert ScopeFits(scope, pc.key.options);
    assert Logs(s, Scan(t, EndSync), Synced(pc.key.generation, scope, pc.found));
  }

  lemma ScanDecision(s: State, t: Tid, step: ScanStep)
    requires Enabled(s, Scan(t, step))
    ensures KeepsDecision(s, Scan(t, step))
  {
    if step.EndSync? {
      EndSyncLogs(s, t);
    } else if step.CheckSync? {
      assert Checks(Scan(t, step), t, step.found);
    }
    hide ReportEnabled, LaneAfter, SyncStepEffect, ScopeOf, LogsSync;
  }

  lemma LimitDecision(s: State, t: Tid, step: LimitStep)
    requires t in s.threads && LimitEnabled(s, t, step)
    ensures !AtSync(LimitApply(s, t, step).threads[t].pc)
  {
  }

  lemma LoopDecision(s: State, t: Tid, step: LoopStep)
    requires t in s.threads && LoopEnabled(s, t, step)
    ensures !AtSync(LoopApply(s, t, step).threads[t].pc)
  {
  }

  lemma ReplyDecision(s: State, t: Tid, step: ReplyStep)
    requires t in s.threads && ReplyEnabled(s, t, step)
    ensures !AtSync(ReplyApply(s, t, step).threads[t].pc)
  {
  }

  lemma ConfigDecision(s: State, t: Tid, step: ConfigureStep)
    requires t in s.threads && ConfigEnabled(s, t, step)
    ensures !AtSync(ConfigApply(s, t, step).threads[t].pc)
  {
  }

  lemma OtherDecision(s: State, a: Action)
    requires Enabled(s, a) && !a.Scan?
    ensures a.t in Apply(s, a).threads && !AtSync(Apply(s, a).threads[a.t].pc)
  {
    OwnRequest(s, a);
    assert !AtSync(Loading);
    hide AtSync, LimitEnabled, LoopEnabled, ReplyEnabled, ConfigEnabled, LimitApply, LoopApply, ReplyApply, ConfigApply;
    match a
    case Arrive(t, request) => assert Apply(s, a).threads[t].pc == Loading;
    case Limit(t, step) => LimitDecision(s, t, step);
    case Loop(t, step) => LoopDecision(s, t, step);
    case Reply(t, step) => ReplyDecision(s, t, step);
    case Config(t, step) => ConfigDecision(s, t, step);
  }

  lemma {:induction false} DecidedAt(states: seq<State>, actions: seq<Action>, n: nat, t: Tid) returns (k: nat)
    requires Run(states, actions) && n <= |actions| && t in states[n].threads && AtSync(states[n].threads[t].pc)
    ensures k < n && Decided(states[k], actions[k], t, states[n].threads[t].pc)
  {
    hide Enabled, Apply, Decided;
    var (s, a) := (states[n - 1], actions[n - 1]);
    if a.t == t {
      if a.Scan? {
        ScanDecision(s, t, a.scan);
      } else {
        OtherDecision(s, a);
      }
      if Decided(s, a, t, states[n].threads[t].pc) {
        k := n - 1;
      } else {
        k := DecidedAt(states, actions, n - 1, t);
      }
    } else {
      OthersStay(s, a, t);
      k := DecidedAt(states, actions, n - 1, t);
    }
  }

  /** A scan that ended without a panic has compared the generations once it was done
      discovering, and has synced what it found if they were equal. */
  lemma SyncDecided(states: seq<State>, actions: seq<Action>, end: nat, t: Tid, key: RefreshKey)
    returns (check: nat, found: Found)
    requires Run(states, actions) && end < |actions|
    requires actions[end] == Scan(t, EndScan) && UnderKey(states[end], t, key)
    ensures check < end && Checks(actions[check], t, found) && UnderKey(states[check], t, key)
    ensures states[check].generation == key.generation ==>
              exists i :: check < i < end && LogsSync(states[i], actions[i], t, key, found)
  {
    assert Enabled(states[end], actions[end]);
    var k := DecidedAt(states, actions, end, t);
    if synced :| LogsSync(states[k], actions[k], t, key, synced) {
      found := synced;
      check := DecidedAt(states, actions, k, t);
    } else {
      found :| Checks(actions[k], t, found) && UnderKey(states[k], t, key) && states[k].generation != key.generation;
      check := k;
    }
  }

  lemma SyncLogged(s: State, a: Action, e: Event)
    requires Logs(s, a, e) && e.Synced?
    ensures a.t in s.threads && s.threads[a.t].pc.Syncing?
    ensures var pc := s.threads[a.t].pc;
            pc.key.generation == e.generation && pc.found == e.found && ScopeFits(e.scope, pc.key.options)
  {
    hide ReportEnabled, Reported, SyncStepEffect, NextConfiguration, NoReader, NoConfigurer;
    assert Apply(s, a).trace[|s.trace|] == e;
  }

  /** A sync was made only by the owner of a scan whose generation it had found to be
      the current one, with the scope that the options of the scan ask for. */
  lemma SyncedOnlyWhenCurrent(states: seq<State>, actions: seq<Action>, p: nat)
    returns (t: Tid, key: RefreshKey, start: nat, check: nat, i: nat)
    requires Run(states, actions) && p < |states[|actions|].trace| && states[|actions|].trace[p].Synced?
    ensures start < |actions| && Starts(states[start], actions[start], t, key)
    ensures check < i < |actions| && Logs(states[i], actions[i], states[|actions|].trace[p]) && actions[i].t == t
    ensures var Synced(generation, scope, found) := states[|actions|].trace[p];
            && Checks(actions[check], t, found) && states[check].generation == generation == key.generation
            && ScopeFits(scope, key.options)
  {
    i := LoggedAt(states, actions, |actions|, p);
    SyncLogged(states[i], actions[i], states[|actions|].trace[p]);
    hide Enabled, Apply, Logs;
    t := actions[i].t;
    key := states[i].threads[t].pc.key;
    check := DecidedAt(states, actions, i, t);
    start := CauseAt(states, actions, i, t);
  }

  // ----- The telemetry -----

  /** The scan of this thread has ended without a panic and its telemetry is to come. */
  predicate TelemetryAhead(pc: Pc) {
    ((pc.Ending? || Completes(pc)) && pc.ok) || (pc.Reporting? && pc.part.Telemetry?)
  }

  lemma ScanTelemetry(s: State, t: Tid, step: ScanStep)
    requires Enabled(s, Scan(t, step))
    ensures TelemetryAhead(s.threads[t].pc) ==>
              step.EndTelemetry? || TelemetryAhead(Apply(s, Scan(t, step)).threads[t].pc)
    ensures step.EndScan? ==> TelemetryAhead(Apply(s, Scan(t, step)).threads[t].pc)
  {
    hide ReportEnabled, LaneAfter, SyncStepEffect, ScopeOf;
  }

  lemma OtherTelemetry(s: State, a: Action)
    requires Enabled(s, a) && !a.Arrive? && !a.Scan? && TelemetryAhead(s.threads[a.t].pc)
    ensures TelemetryAhead(Apply(s, a).threads[a.t].pc)
  {
    hide CompletionBegun, Drained, NextConfiguration, NoReader, NoConfigurer;
  }

  lemma {:induction false} TelemetryKept(states: seq<State>, actions: seq<Action>, end: nat, n: nat, t: Tid)
    requires Run(states, actions) && end < n <= |actions| && actions[end] == Scan(t, EndScan)
    requires forall k | end < k < n :: actions[k] != Scan(t, EndTelemetry)
    ensures t in states[n].threads && TelemetryAhead(states[n].threads[t].pc)
  {
    var (s, a) := (states[n - 1], actions[n - 1]);
    if n == end + 1 {
      OwnRequest(s, a);
      ScanTelemetry(s, t, a.scan);
    } else {
      hide Enabled, Apply, TelemetryAhead;
      TelemetryKept(states, actions, end, n - 1, t);
      if a.t != t {
        OthersStay(s, a, t);
        StillAhead(s.threads[t], states[n].threads[t]);
      } else {
        OwnRequest(s, a);
        AheadStep(s, a, t);
      }
    }
  }

  lemma StillAhead(before: Thread, after: Thread)
    requires TelemetryAhead(before.pc) && Stays(before, after)
    ensures TelemetryAhead(after.pc)
  {
  }

  lemma AheadStep(s: State, a: Action, t: Tid)
    requires Enabled(s, a) && a.t == t && t in s.threads && TelemetryAhead(s.threads[t].pc)
    requires a != Scan(t, EndTelemetry)
    ensures t in Apply(s, a).threads && TelemetryAhead(Apply(s, a).threads[t].pc)
  {
    OwnRequest(s, a);
    assert !a.Arrive?;
    hide Enabled, Apply, TelemetryAhead;
    if a.Scan? {
      ScanTelemetry(s, t, a.scan);
    } else {
      OtherTelemetry(s, a);
    }
  }

  /** Once a thread is gone, its telemetry has been reported if and only if it ended a
      scan without a panic. */
  lemma TelemetryExactlyAfterSuccess(states: seq<State>, actions: seq<Action>, t: Tid)
    requires Run(states, actions) && t in states[|actions|].threads && states[|actions|].threads[t].pc.Gone?
    ensures (exists k | 0 <= k < |actions| :: actions[k] == Scan(t, EndTelemetry)) <==>
            (exists k | 0 <= k < |actions| :: actions[k] == Scan(t, EndScan))
  {
    if k: nat :| k < |actions| && actions[k] == Scan(t, EndTelemetry) {
      assert Enabled(states[k], actions[k]);
      var end := CauseAt(states, actions, k, t);
      assert actions[end] == Scan(t, EndScan);
    } else if end: nat :| end < |actions| && actions[end] == Scan(t, EndScan) {
      assert forall k: nat | k < |actions| :: actions[k] != Scan(t, EndTelemetry);
      TelemetryKept(states, actions, end, |actions|, t);
    }
  }
}
