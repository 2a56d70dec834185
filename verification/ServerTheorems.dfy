/** What every reachable state and every run of the server satisfies. */
module ServerTheorems {
  import opened Basics
  import opened Coordinator
  import opened ServerModel
  import opened ServerSums
  import opened ServerOwner
  import opened ServerReplies
  import opened ServerConfiguration
  import opened ServerSync
  import opened ServerProgress

  /** The inductive invariant; `initial` is the discovery state at the start. */
  ghost predicate Good(s: State, initial: seq<Store>) {
    && OwnerFits(s) && RepliesFit(s) && ConfigurationFits(s) && HistoryFits(s) && SyncFits(s, initial) && StagesFit(s)
  }

  lemma InitGood(s: State)
    requires Init(s)
    ensures Good(s, s.stores)
  {
  }

  lemma StepGood(s: State, a: Action, initial: seq<Store>)
    requires Good(s, initial) && Enabled(s, a)
    ensures Good(Apply(s, a), initial)
  {
    OwnerFitsKept(s, a);
    RepliesFitKept(s, a);
    ConfigurationFitsKept(s, a);
    HistoryFitsKept(s, a);
    SyncFitsKept(s, a, initial);
    StagesFitKept(s, a);
  }

  lemma {:induction false} RunGood(states: seq<State>, actions: seq<Action>, n: nat)
    requires Follows(states, actions) && Init(states[0]) && n <= |actions|
    ensures Good(states[n], states[0].stores)
  {
    if n == 0 {
      InitGood(states[0]);
    } else {
      RunGood(states, actions, n - 1);
      StepGood(states[n - 1], actions[n - 1], states[0].stores);
    }
  }

  lemma ReachableGood(s: State) returns (initial: seq<Store>)
    requires Reachable(s)
    ensures Good(s, initial)
    ensures forall i | 0 <= i < |initial| :: initial[i].entries == map[]
  {
    var states: seq<State>, actions: seq<Action> :|
      Follows(states, actions) && Init(states[0]) && states[|actions|] == s;
    RunGood(states, actions, |actions|);
    initial := states[0].stores;
  }

  // ----- Exactly one reply -----

  /** No ticket is ever replied to more often than it was received, and whatever
      has no reply yet is accounted for. */
  lemma NoReplyLostOrDoubled(s: State, x: Ticket)
    requires Reachable(s)
    ensures Count(s.trace, Receipts(x)) ==
            Count(s.trace, Replies(x)) + Sum(s.threads, Owes(x)) + TicketCount(s.coordinator.Waiting(), x)
    ensures Count(s.trace, Replies(x)) <= Count(s.trace, Receipts(x))
  {
    var initial := ReachableGood(s);
    assert TicketFits(s, x);
  }

  /** Once no thread is left every request received has had exactly one reply. */
  lemma FinishedMeansReplied(s: State)
    requires Reachable(s)
    requires forall t | t in s.threads :: s.threads[t].pc.Gone?
    ensures forall x :: Count(s.trace, Receipts(x)) == Count(s.trace, Replies(x))
    ensures s.coordinator == Idle && s.active == 0
  {
    var initial := ReachableGood(s);
    SumZero(s.threads, Permits);
    forall x ensures Count(s.trace, Receipts(x)) == Count(s.trace, Replies(x)) {
      assert TicketFits(s, x);
      SumZero(s.threads, Owes(x));
    }
  }

  lemma {:induction false} SumZero(m: map<Tid, Thread>, w: Weight)
    requires forall t | t in m :: WeightOf(m[t], w) == 0
    ensures Sum(m, w) == 0
    decreases |m|
  {
    if m != map[] {
      var t :| t in m && Sum(m, w) == WeightOf(m[t], w) + Sum(m - {t}, w);
      SumZero(m - {t}, w);
    }
  }

  /** A scan answers an id no more often than it registered the very options and
      generation of that scan. */
  lemma AnsweredUnderOwnKey(s: State, id: RequestId, key: RefreshKey)
    requires Reachable(s)
    ensures Count(s.trace, Answers(id, key)) <= Count(s.trace, Joins(id, key))
    ensures s.coordinator.Idle? ==> Count(s.trace, Answers(id, key)) == Count(s.trace, Joins(id, key))
  {
    var initial := ReachableGood(s);
    assert PairFits(s, id, key);
    if s.coordinator.Idle? {
      forall t | t in s.threads ensures WeightOf(s.threads[t], OwesPair(id, key)) == 0 {
        assert ThreadFits(s.coordinator, s.threads[t]);
      }
      SumZero(s.threads, OwesPair(id, key));
    }
  }

  // ----- Single owner -----

  /** The coordinator is busy exactly while one thread owns the scan, and the key
      and phase of that thread are the stored ones. */
  lemma SingleOwner(s: State)
    requires Reachable(s)
    ensures !s.coordinator.Idle? <==> exists t :: t in s.threads && Owns(s.threads[t].pc)
    ensures forall t, u | t in s.threads && u in s.threads && Owns(s.threads[t].pc) && Owns(s.threads[u].pc) :: t == u
    ensures forall t | t in s.threads && Scans(s.threads[t].pc) ::
              s.coordinator.Running? && s.coordinator.key == s.threads[t].pc.key
    ensures forall t | t in s.threads && Completes(s.threads[t].pc) ::
              s.coordinator.Completing? && s.coordinator.key == s.threads[t].pc.key
  {
    var initial := ReachableGood(s);
    forall t | t in s.threads ensures ThreadFits(s.coordinator, s.threads[t]) {}
  }

  /** None of the three mismatch panics can be reached, and a drain never finds
      the coordinator idle. */
  lemma NoMismatchPanic(s: State, t: Tid)
    requires Reachable(s) && t in s.threads
    ensures s.threads[t].pc.Ending? ==> CompletionBegun(s.coordinator, s.threads[t].pc.key).Some?
    ensures s.threads[t].pc.Draining? ==> Drained(s.coordinator, s.threads[t].pc.key).Some? && !s.coordinator.Idle?
    ensures s.threads[t].pc.Checking? ==> CompletedIfEmpty(s.coordinator, s.threads[t].pc.key).Some?
  {
    var initial := ReachableGood(s);
    assert ThreadFits(s.coordinator, s.threads[t]);
  }

  // ----- Bounded outstanding work -----

  /** Refresh ids that took a permit and have neither a reply nor a refusal. */
  ghost function Outstanding(s: State): nat {
    Sum(s.threads, Accepted) + |s.coordinator.Waiting()| + Sum(s.threads, Batched)
  }

  /** The counter is the number of live permits, stays within its limit, cannot
      underflow, and with the two lists bounds all outstanding refresh work. */
  lemma BoundedWork(s: State)
    requires Reachable(s)
    ensures s.active == Sum(s.threads, Permits) <= 32
    ensures forall t | t in s.threads && HoldsPermit(s.threads[t].pc) :: 0 < s.active
    ensures Outstanding(s) <= 32 + 256 + 256 - 1
  {
    var initial := ReachableGood(s);
    forall t | t in s.threads && HoldsPermit(s.threads[t].pc) ensures 0 < s.active { PermitHeld(s, t); }
    if o :| o in s.threads && Owns(s.threads[o].pc) {
      OwnerShare(s, o);
    } else {
      forall t | t in s.threads ensures WeightOf(s.threads[t], Batched) == 0 {
        assert !Owns(s.threads[t].pc);
      }
      SumZero(s.threads, Batched);
      SumAtMost(s.threads, Accepted, s.threads, Permits);
    }
  }

  /** The owner has a permit but no id of its own, and the only batch. */
  lemma OwnerShare(s: State, o: Tid)
    requires OwnerFits(s) && PermitsFit(s)
    requires o in s.threads && Owns(s.threads[o].pc)
    ensures Sum(s.threads, Accepted) < MAX_ACTIVE_REQUESTS
    ensures Sum(s.threads, Batched) <= MAX_JOINED_REFRESH_REQUESTS
  {
    var rest := s.threads - {o};
    SumRemove(s.threads, o, Accepted);
    SumRemove(s.threads, o, Permits);
    SumAtMost(rest, Accepted, rest, Permits);
    SumRemove(s.threads, o, Batched);
    forall t | t in rest ensures WeightOf(rest[t], Batched) == 0 {
      assert t in s.threads && t != o;
      assert !Owns(s.threads[t].pc);
    }
    SumZero(rest, Batched);
    assert ThreadFits(s.coordinator, s.threads[o]);
  }

  // ----- Generations -----

  /** Generations count the successful configures, each of which was applied to
      the result of the previous one, so no update is lost. */
  lemma NoLostConfigure(s: State)
    requires Reachable(s)
    ensures s.generation == GenerationIn(s.trace)
    ensures s.configuration == ConfigurationIn(s.trace)
    ensures (forall t | t in s.threads :: !HoldsConfigure(s.threads[t].pc)) ==> s.applied == Some(s.configuration)
  {
    var initial := ReachableGood(s);
  }

  predicate CommitsAt(trace: Trace, i: int) {
    0 <= i < |trace| && trace[i].Committed?
  }

  /** A commit that also names a cache directory. */
  predicate SetsDirectoryAt(trace: Trace, i: int) {
    CommitsAt(trace, i) && trace[i].change.cacheDirectory.Some?
  }

  ghost predicate LastCommit(trace: Trace, i: int) {
    CommitsAt(trace, i) && forall j | i < j < |trace| :: !CommitsAt(trace, j)
  }

  ghost predicate LastDirectory(trace: Trace, i: int) {
    SetsDirectoryAt(trace, i) && forall j | i < j < |trace| :: !SetsDirectoryAt(trace, j)
  }

  lemma {:induction false} LastCommitCounts(trace: Trace, i: nat)
    requires LastCommit(trace, i)
    ensures ConfigurationIn(trace).rest == trace[i].change.rest
  {
    var init := trace[..|trace| - 1];
    if i < |init| {
      assert !CommitsAt(trace, |init|);
      assert forall j | i < j < |init| :: CommitsAt(init, j) ==> CommitsAt(trace, j);
      LastCommitCounts(init, i);
    }
  }

  lemma {:induction false} LastDirectoryCounts(trace: Trace, i: nat)
    requires LastDirectory(trace, i)
    ensures ConfigurationIn(trace).cacheDirectory == trace[i].change.cacheDirectory
  {
    var init := trace[..|trace| - 1];
    if i < |init| {
      assert !SetsDirectoryAt(trace, |init|);
      assert forall j | i < j < |init| :: SetsDirectoryAt(init, j) ==> SetsDirectoryAt(trace, j);
      LastDirectoryCounts(init, i);
    }
  }

  lemma {:induction false} NeverSet(trace: Trace)
    ensures (forall j | 0 <= j < |trace| :: !CommitsAt(trace, j)) ==> ConfigurationIn(trace).rest == ""
    ensures (forall j | 0 <= j < |trace| :: !SetsDirectoryAt(trace, j)) ==>
              ConfigurationIn(trace).cacheDirectory == None
  {
    if trace != [] {
      var init := trace[..|trace| - 1];
      assert forall j | 0 <= j < |init| :: CommitsAt(init, j) ==> CommitsAt(trace, j);
      assert forall j | 0 <= j < |init| :: SetsDirectoryAt(init, j) ==> SetsDirectoryAt(trace, j);
      assert trace[|init|].Committed? ==> CommitsAt(trace, |init|);
      assert trace[|init|].Committed? && trace[|init|].change.cacheDirectory.Some? ==> SetsDirectoryAt(trace, |init|);
      NeverSet(init);
    }
  }

  /** The configuration is that of the last commit, except that a configure without a
      cache directory keeps the last one set. */
  lemma LastConfigureCounts(s: State)
    requires Reachable(s)
    ensures forall i | LastCommit(s.trace, i) :: s.configuration.rest == s.trace[i].change.rest
    ensures forall i | LastDirectory(s.trace, i) :: s.configuration.cacheDirectory == s.trace[i].change.cacheDirectory
    ensures (forall j | 0 <= j < |s.trace| :: !CommitsAt(s.trace, j)) ==> s.configuration.rest == ""
    ensures (forall j | 0 <= j < |s.trace| :: !SetsDirectoryAt(s.trace, j)) ==> s.configuration.cacheDirectory == None
  {
    NoLostConfigure(s);
    NeverSet(s.trace);
    hide Reachable, ConfigurationIn, GenerationIn, SetsDirectoryAt;
    forall i | LastCommit(s.trace, i) ensures s.configuration.rest == s.trace[i].change.rest {
      LastCommitCounts(s.trace, i);
    }
    forall i | LastDirectory(s.trace, i)
      ensures s.configuration.cacheDirectory == s.trace[i].change.cacheDirectory
    {
      LastDirectoryCounts(s.trace, i);
    }
  }

  lemma {:induction false} GenerationGrows(trace: Trace, i: nat, j: nat)
    requires i <= j <= |trace|
    ensures GenerationIn(trace[..i]) <= GenerationIn(trace[..j])
    decreases j
  {
    if i < j {
      GenerationGrows(trace, i, j - 1);
      assert trace[..j][..j - 1] == trace[..j - 1];
    }
  }

  /** Along the history the generations of notifications never decrease; nothing
      for an older generation appears after a commit, nor for a newer one before it. */
  lemma NotificationsInOrder(s: State, i: nat, j: nat)
    requires Reachable(s) && i < j < |s.trace|
    ensures s.trace[i].Notified? && s.trace[j].Notified? ==> s.trace[i].generation <= s.trace[j].generation
    ensures s.trace[i].Committed? && s.trace[j].Notified? ==> s.trace[i].generation <= s.trace[j].generation
    ensures s.trace[i].Notified? && s.trace[j].Committed? ==> s.trace[i].generation < s.trace[j].generation
    ensures s.trace[i].Committed? && s.trace[j].Committed? ==> s.trace[i].generation < s.trace[j].generation
  {
    var initial := ReachableGood(s);
    assert s.trace[..i + 1][..i] == s.trace[..i];
    GenerationGrows(s.trace, i, i + 1);
    GenerationGrows(s.trace, i + 1, j);
  }

  // ----- Serialised sync -----

  /** The stores before anything was discovered. */
  function Emptied(stores: seq<Store>): seq<Store> {
    seq(|stores|, i requires 0 <= i < |stores| => stores[i].(entries := map[]))
  }

  lemma {:induction false} StoresKeepKinds(trace: Trace, initial: seq<Store>)
    ensures forall i | 0 <= i < |initial| :: StoresIn(trace, initial)[i].supported == initial[i].supported
  {
    if trace != [] {
      StoresKeepKinds(trace[..|trace| - 1], initial);
    }
  }

  /** While nobody syncs, and no sync has panicked half way, the shared discovery
      state is the fold of the finished syncs, each of which ran whole while its
      generation was the current one. */
  lemma DiscoveryIsFold(s: State)
    requires Reachable(s)
    ensures s.syncsWhole && (forall t | t in s.threads :: !s.threads[t].pc.Syncing?) ==>
              s.stores == StoresIn(s.trace, Emptied(s.stores))
    ensures forall i | 0 <= i < |s.trace| && s.trace[i].Synced? :: s.trace[i].generation == GenerationIn(s.trace[..i])
    ensures forall t, u | t in s.threads && u in s.threads && s.threads[t].pc.Syncing? && s.threads[u].pc.Syncing? ::
              t == u
  {
    var initial := ReachableGood(s);
    if s.syncsWhole && forall t | t in s.threads :: !s.threads[t].pc.Syncing? {
      StoresKeepKinds(s.trace, initial);
      assert Emptied(s.stores) == initial;
    }
  }

  // ----- Progress -----

  /** No reachable state with a thread left is stuck. */
  lemma NoDeadlock(s: State, t: Tid) returns (a: Action)
    requires Reachable(s) && t in s.threads && !s.threads[t].pc.Gone?
    ensures Enabled(s, a) && IsProgress(s, a)
    ensures WriterWaits(s) ==> !AcquiresRead(a)
  {
    var initial := ReachableGood(s);
    a := SomeStepEnabled(s, t);
  }

  /** No thread is parked while the coordinator is idle. */
  lemma NobodyLeftParked(s: State)
    requires Reachable(s) && s.coordinator.Idle?
    ensures forall t | t in s.threads :: !s.threads[t].pc.Parked?
  {
    var initial := ReachableGood(s);
    forall t | t in s.threads ensures !s.threads[t].pc.Parked? { assert ThreadFits(s.coordinator, s.threads[t]); }
  }

  /** A run in which nothing can go on has replied to everything. */
  lemma StuckMeansReplied(s: State)
    requires Reachable(s)
    requires forall a | Enabled(s, a) :: !IsProgress(s, a)
    ensures forall x :: Count(s.trace, Receipts(x)) == Count(s.trace, Replies(x))
  {
    forall t | t in s.threads ensures s.threads[t].pc.Gone? {
      if !s.threads[t].pc.Gone? {
        var a := NoDeadlock(s, t);
      }
    }
    FinishedMeansReplied(s);
  }

  ghost predicate StepsAt(run: nat -> State, act: nat -> Action, n: nat) {
    Enabled(run(n), act(n)) && run(n + 1) == Apply(run(n), act(n))
  }

  /** Once the environment is quiet - no arrival, no spurious wake-up, no spurious
      failure - every run comes to an end, whatever the scheduler does. */
  lemma EveryRunEnds(run: nat -> State, act: nat -> Action, quiet: nat)
    requires Init(run(0))
    requires forall n: nat | n >= quiet :: StepsAt(run, act, n) ==> IsProgress(run(n), act(n))
    ensures exists n: nat :: !StepsAt(run, act, n)
  {
    if forall n: nat :: StepsAt(run, act, n) {
      InitGood(run(0));
      InfiniteGood(run, act, run(0).stores, quiet);
      Descend(run, act, run(0).stores, quiet, MeasureOf(run(quiet)));
    }
  }

  lemma {:induction false} InfiniteGood(run: nat -> State, act: nat -> Action, initial: seq<Store>, n: nat)
    requires Good(run(0), initial)
    requires forall i: nat :: StepsAt(run, act, i)
    ensures Good(run(n), initial)
  {
    if n > 0 {
      InfiniteGood(run, act, initial, n - 1);
      assert StepsAt(run, act, n - 1);
      StepGood(run(n - 1), act(n - 1), initial);
    }
  }

  /** There is no infinite descent of the measure. */
  lemma {:induction false} Descend(run: nat -> State, act: nat -> Action, initial: seq<Store>, n: nat, m: Measure)
    requires Good(run(n), initial) && m == MeasureOf(run(n))
    requires forall i: nat :: StepsAt(run, act, i)
    requires forall i: nat | i >= n :: StepsAt(run, act, i) ==> IsProgress(run(i), act(i))
    ensures false
    decreases m.unanswered, m.unregistered, m.phase, m.changes, m.rank
  {
    assert StepsAt(run, act, n);
    ProgressDecreases(run(n), act(n));
    StepGood(run(n), act(n), initial);
    Descend(run, act, initial, n + 1, MeasureOf(run(n + 1)));
  }

  // ----- Every request is answered -----

  /** The scheduler never rests while a thread can go on. */
  ghost predicate NeverIdles(run: nat -> State, act: nat -> Action) {
    forall n: nat, a: Action :: Enabled(run(n), a) && IsProgress(run(n), a) ==> StepsAt(run, act, n)
  }

  lemma PrefixReachable(run: nat -> State, act: nat -> Action, n: nat)
    requires Init(run(0)) && forall i: nat | i < n :: StepsAt(run, act, i)
    ensures Reachable(run(n))
  {
    var states := seq(n + 1, i requires 0 <= i < n + 1 => run(i));
    var actions := seq(n, i requires 0 <= i < n => act(i));
    forall i | 0 <= i < |actions|
      ensures Enabled(states[i], actions[i]) && states[i + 1] == Apply(states[i], actions[i])
    {
      assert StepsAt(run, act, i);
    }
    assert Follows(states, actions) && Init(states[0]) && states[|actions|] == run(n);
  }

  lemma FirstStop(run: nat -> State, act: nat -> Action, from: nat, bound: nat) returns (n: nat)
    requires from <= bound && !StepsAt(run, act, bound)
    ensures from <= n <= bound && !StepsAt(run, act, n) && forall i: nat | from <= i < n :: StepsAt(run, act, i)
  {
    n := from;
    while StepsAt(run, act, n)
      invariant from <= n <= bound && forall i: nat | from <= i < n :: StepsAt(run, act, i)
      decreases bound - n
    {
      n := n + 1;
    }
  }

  /** Whatever arrives up to some point, and however the threads are scheduled: if
      the environment is quiet afterwards, the run reaches a state in which every
      request received has had exactly one reply. */
  lemma EveryRequestAnswered(run: nat -> State, act: nat -> Action, quiet: nat) returns (n: nat)
    requires Init(run(0)) && NeverIdles(run, act)
    requires forall i: nat | i < quiet :: StepsAt(run, act, i)
    requires forall i: nat | i >= quiet :: StepsAt(run, act, i) ==> IsProgress(run(i), act(i))
    ensures n >= quiet && Reachable(run(n))
    ensures forall x :: Count(run(n).trace, Receipts(x)) == Count(run(n).trace, Replies(x))
  {
    EveryRunEnds(run, act, quiet);
    var stop: nat :| !StepsAt(run, act, stop);
    n := FirstStop(run, act, quiet, stop);
    PrefixReachable(run, act, n);
    StuckMeansReplied(run(n));
  }
}
