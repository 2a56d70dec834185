/** Refreshes are answered in the order in which their ids joined. */
module ServerOrder {
  import opened Basics
  import opened Coordinator
  import opened ServerModel
  import opened ServerOwner
  import opened ServerRuns
  import opened ServerTheorems

  /** An id with the key it joined, or was answered, under. */
  type Entry = (RequestId, RefreshKey)

  function Entries(ids: seq<RequestId>, key: RefreshKey): seq<Entry> {
    seq(|ids|, i requires 0 <= i < |ids| => (ids[i], key))
  }

  function Joined(e: Event): seq<Entry> {
    if e.Joining? then [(e.id, e.key)] else []
  }

  function Replied(e: Event): seq<Entry> {
    if e.Answered? then [(e.id, e.key)] else []
  }

  function JoinedIn(trace: Trace): seq<Entry> {
    if trace == [] then [] else JoinedIn(trace[..|trace| - 1]) + Joined(trace[|trace| - 1])
  }

  function AnsweredIn(trace: Trace): seq<Entry> {
    if trace == [] then [] else AnsweredIn(trace[..|trace| - 1]) + Replied(trace[|trace| - 1])
  }

  lemma LogAppend(trace: Trace, e: Event)
    ensures JoinedIn(trace + [e]) == JoinedIn(trace) + Joined(e)
    ensures AnsweredIn(trace + [e]) == AnsweredIn(trace) + Replied(e)
  {
    assert (trace + [e])[..|trace|] == trace;
  }

  function Pending(c: CoordinatorState): seq<Entry> {
    if c.Idle? then [] else Entries(c.ids, c.key)
  }

  /** What has joined is what was answered, then the drained batch, then the list. */
  ghost predicate InOrder(s: State, batch: seq<Entry>) {
    JoinedIn(s.trace) == AnsweredIn(s.trace) + batch + Pending(s.coordinator)
  }

  ghost predicate OrderFits(s: State) {
    && (forall t | t in s.threads && s.threads[t].pc.Replying? ::
          InOrder(s, Entries(s.threads[t].pc.batch, s.threads[t].pc.key)))
    && ((forall t | t in s.threads :: !s.threads[t].pc.Replying?) ==> InOrder(s, []))
  }

  lemma SameOrder(s: State, s': State, es: seq<Event>)
    requires Pending(s'.coordinator) == Pending(s.coordinator)
    requires |es| <= 1 && s'.trace == s.trace + es && (es != [] ==> !es[0].Joining? && !es[0].Answered?)
    ensures forall batch :: InOrder(s, batch) ==> InOrder(s', batch)
  {
    if es == [] {
      assert s'.trace == s.trace;
    } else {
      assert es == [es[0]];
      LogAppend(s.trace, es[0]);
    }
  }

  /** A step that neither joins nor answers, of a thread that holds no batch. */
  lemma QuietOrder(s: State, s': State, t: Tid, es: seq<Event>)
    requires OrderFits(s) && t in s.threads && MovesOnly(s, s', t)
    requires Pending(s'.coordinator) == Pending(s.coordinator)
    requires |es| <= 1 && s'.trace == s.trace + es && (es != [] ==> !es[0].Joining? && !es[0].Answered?)
    requires !s.threads[t].pc.Replying? && !s'.threads[t].pc.Replying?
    ensures OrderFits(s')
  {
    SameOrder(s, s', es);
    hide InOrder, Entries;
    if u :| u in s.threads && s.threads[u].pc.Replying? {
      assert u in s'.threads && s'.threads[u] == s.threads[u];
    }
  }

  lemma ArrivedOrder(s: State, t: Tid, request: Request)
    requires OrderFits(s) && t !in s.threads
    ensures OrderFits(Arrived(s, t, request))
  {
    var s' := Arrived(s, t, request);
    LogAppend(s.trace, Received(TicketOf(request)));
    hide JoinedIn, AnsweredIn, Pending, Entries;
    if u :| u in s.threads && s.threads[u].pc.Replying? {
      assert u in s'.threads && s'.threads[u] == s.threads[u];
    }
  }

  lemma EntriesAppend(ids: seq<RequestId>, id: RequestId, key: RefreshKey)
    ensures Entries(ids + [id], key) == Entries(ids, key) + [(id, key)]
  {
  }

  lemma JoinedOrder(s: State, s': State, t: Tid, id: RequestId, key: RefreshKey)
    requires OrderFits(s) && t in s.threads && MovesOnly(s, s', t)
    requires !s.threads[t].pc.Replying? && !s'.threads[t].pc.Replying?
    requires s'.trace == s.trace + [Joining(id, key)]
    requires Pending(s'.coordinator) == Pending(s.coordinator) + [(id, key)]
    ensures OrderFits(s')
  {
    LogAppend(s.trace, Joining(id, key));
    hide JoinedIn, AnsweredIn, Pending, Entries;
    if u :| u in s.threads && s.threads[u].pc.Replying? {
      assert u in s'.threads && s'.threads[u] == s.threads[u];
    }
  }

  lemma RegisteredOrder(s: State, t: Tid, todo: nat)
    requires OrderFits(s) && Enabled(s, Loop(t, Register(todo)))
    ensures OrderFits(Apply(s, Loop(t, Register(todo))))
  {
    var s' := Apply(s, Loop(t, Register(todo)));
    var (id, key) := (s.threads[t].request.id, s.threads[t].pc.key);
    StepMoves(s, Loop(t, Register(todo)));
    var outcome := Registered(s.coordinator, id, key).1;
    if outcome.Wait? || outcome.Busy? {
      QuietOrder(s, s', t, []);
    } else {
      EntriesAppend(s.coordinator.Waiting(), id, key);
      hide OrderFits, MovesOnly;
      JoinedOrder(s, s', t, id, key);
    }
  }

  // ----- The steps of the owner that replies -----

  /** Only the owner of the scan can hold a batch. */
  lemma AloneReplying(s: State, t: Tid)
    requires OwnerFits(s) && t in s.threads && Owns(s.threads[t].pc)
    ensures forall u | u in s.threads && s.threads[u].pc.Replying? :: u == t
  {
  }

  lemma DrainedOrder(s: State, t: Tid)
    requires OrderFits(s) && OwnerFits(s) && Enabled(s, Reply(t, Drain))
    ensures OrderFits(Apply(s, Reply(t, Drain)))
  {
    var s' := Apply(s, Reply(t, Drain));
    AloneReplying(s, t);
    assert ThreadFits(s.coordinator, s.threads[t]);
    hide JoinedIn, AnsweredIn, OwnerFits;
    assert InOrder(s, []);
    var (key, ids) := (s.threads[t].pc.key, s.coordinator.ids);
    assert s.coordinator.key == key && s'.coordinator.ids == [];
    assert s'.threads[t].pc == Replying(key, s.threads[t].pc.ok, ids);
    assert Pending(s'.coordinator) == [] && Pending(s.coordinator) == Entries(ids, key);
    assert InOrder(s', Entries(ids, key));
  }

  lemma EntriesFirst(ids: seq<RequestId>, key: RefreshKey)
    requires ids != []
    ensures Entries(ids, key) == [(ids[0], key)] + Entries(ids[1..], key)
  {
  }

  lemma AnsweredOrder(s: State, t: Tid)
    requires OrderFits(s) && OwnerFits(s) && Enabled(s, Reply(t, ReplyOne))
    ensures OrderFits(Apply(s, Reply(t, ReplyOne)))
  {
    var s' := Apply(s, Reply(t, ReplyOne));
    AloneReplying(s, t);
    var pc := s.threads[t].pc;
    LogAppend(s.trace, Answered(pc.batch[0], pc.key, pc.ok));
    EntriesFirst(pc.batch, pc.key);
    hide JoinedIn, AnsweredIn, OwnerFits, Pending, Entries;
    assert InOrder(s, Entries(pc.batch, pc.key));
    FirstAnswered(AnsweredIn(s.trace), (pc.batch[0], pc.key), Entries(pc.batch[1..], pc.key), Pending(s.coordinator));
    assert InOrder(s', Entries(pc.batch[1..], pc.key));
    assert s'.threads[t].pc == pc.(batch := pc.batch[1..]);
  }

  lemma FirstAnswered(answered: seq<Entry>, first: Entry, batch: seq<Entry>, pending: seq<Entry>)
    ensures answered + ([first] + batch) + pending == answered + [first] + batch + pending
  {
  }

  lemma BatchDone(s: State, t: Tid)
    requires OrderFits(s) && OwnerFits(s) && Enabled(s, Reply(t, EndBatch))
    ensures OrderFits(Apply(s, Reply(t, EndBatch)))
  {
    AloneReplying(s, t);
    var pc := s.threads[t].pc;
    assert Entries(pc.batch, pc.key) == [];
    hide JoinedIn, AnsweredIn, OwnerFits, Pending, Entries;
    assert InOrder(s, Entries(pc.batch, pc.key));
  }

  lemma ReplyOrder(s: State, t: Tid, step: ReplyStep)
    requires OrderFits(s) && OwnerFits(s) && Enabled(s, Reply(t, step))
    ensures OrderFits(Apply(s, Reply(t, step)))
  {
    if step.Drain? {
      DrainedOrder(s, t);
    } else if step.ReplyOne? {
      AnsweredOrder(s, t);
    } else if step.EndBatch? {
      BatchDone(s, t);
    } else {
      CompletionOrder(s, t, step);
    }
  }

  lemma CompletionOrder(s: State, t: Tid, step: ReplyStep)
    requires OrderFits(s) && OwnerFits(s) && Enabled(s, Reply(t, step)) && (step.BeginCompletion? || step.Complete?)
    ensures OrderFits(Apply(s, Reply(t, step)))
  {
    assert ThreadFits(s.coordinator, s.threads[t]);
    StepMoves(s, Reply(t, step));
    hide OrderFits, OwnerFits, MovesOnly;
    QuietOrder(s, Apply(s, Reply(t, step)), t, []);
  }

  // ----- All other steps -----

  /** The step leaves the coordinator and the answers alone. */
  ghost predicate Quiet(s: State, s': State, t: Tid) {
    && t in s.threads && t in s'.threads && !s.threads[t].pc.Replying? && !s'.threads[t].pc.Replying?
    && s'.coordinator == s.coordinator
    && |s.trace| <= |s'.trace| <= |s.trace| + 1 && s'.trace[..|s.trace|] == s.trace
    && forall i | |s.trace| <= i < |s'.trace| :: !s'.trace[i].Joining? && !s'.trace[i].Answered?
  }

  lemma LimitQuiet(s: State, t: Tid, step: LimitStep)
    requires t in s.threads && LimitEnabled(s, t, step)
    ensures Quiet(s, LimitApply(s, t, step), t)
  {
  }

  lemma LoopQuiet(s: State, t: Tid, step: LoopStep)
    requires t in s.threads && LoopEnabled(s, t, step) && !step.Register?
    ensures Quiet(s, LoopApply(s, t, step), t)
  {
  }

  lemma ScanQuiet(s: State, t: Tid, step: ScanStep)
    requires t in s.threads && ScanEnabled(s, t, step)
    ensures Quiet(s, ScanApply(s, t, step), t)
  {
    hide ReportEnabled, LaneAfter, SyncStepEffect, ScopeOf;
  }

  lemma ConfigQuiet(s: State, t: Tid, step: ConfigureStep)
    requires t in s.threads && ConfigEnabled(s, t, step)
    ensures Quiet(s, ConfigApply(s, t, step), t)
  {
    hide NextConfiguration, NoReader, NoConfigurer;
  }

  lemma OtherOrder(s: State, a: Action)
    requires OrderFits(s) && Enabled(s, a) && !a.Arrive? && !a.Reply? && !(a.Loop? && a.loop.Register?)
    ensures OrderFits(Apply(s, a))
  {
    StepMoves(s, a);
    hide OrderFits, MovesOnly, Quiet, Pending;
    hide LimitEnabled, LoopEnabled, ScanEnabled, ConfigEnabled, LimitApply, LoopApply, ScanApply, ConfigApply;
    match a {
      case Limit(t, step) => LimitQuiet(s, t, step);
      case Loop(t, step) => LoopQuiet(s, t, step);
      case Scan(t, step) => ScanQuiet(s, t, step);
      case Config(t, step) => ConfigQuiet(s, t, step);
    }
    QuietKept(s, Apply(s, a), a.t);
  }

  lemma QuietKept(s: State, s': State, t: Tid)
    requires OrderFits(s) && Quiet(s, s', t) && MovesOnly(s, s', t)
    ensures OrderFits(s')
  {
    hide OrderFits, MovesOnly;
    var es := s'.trace[|s.trace|..];
    assert s'.trace == s.trace + es;
    assert es != [] ==> es[0] == s'.trace[|s.trace|];
    QuietOrder(s, s', t, es);
  }

  lemma StepOrder(s: State, a: Action)
    requires OrderFits(s) && OwnerFits(s) && Enabled(s, a)
    ensures OrderFits(Apply(s, a))
  {
    if a.Arrive? {
      ArrivedOrder(s, a.t, a.request);
    } else {
      hide OrderFits, OwnerFits, Enabled, Apply;
      if a.Reply? {
        ReplyOrder(s, a.t, a.reply);
      } else if a.Loop? && a.loop.Register? {
        RegisteredOrder(s, a.t, a.loop.todo);
      } else {
        OtherOrder(s, a);
      }
    }
  }

  lemma {:induction false} RunInOrder(states: seq<State>, actions: seq<Action>, n: nat)
    requires Run(states, actions) && n <= |actions|
    ensures OrderFits(states[n])
  {
    if n > 0 {
      hide OrderFits, OwnerFits, Enabled, Apply;
      RunInOrder(states, actions, n - 1);
      RunGood(states, actions, n - 1);
      assert OwnerFits(states[n - 1]);
      StepOrder(states[n - 1], actions[n - 1]);
    }
  }

  /** The answers of all scans, one after the other, are the first of the ids that
      joined, in the same order and under the same keys; once the coordinator is idle
      they are all of them. */
  lemma AnsweredInJoinOrder(s: State)
    requires Reachable(s)
    ensures AnsweredIn(s.trace) <= JoinedIn(s.trace)
    ensures s.coordinator.Idle? ==> AnsweredIn(s.trace) == JoinedIn(s.trace)
  {
    var states: seq<State>, actions: seq<Action> :|
      Follows(states, actions) && Init(states[0]) && states[|actions|] == s;
    RunInOrder(states, actions, |actions|);
    RunGood(states, actions, |actions|);
    hide JoinedIn, AnsweredIn, Entries, Reachable, Follows, Init;
    if t :| t in s.threads && s.threads[t].pc.Replying? {
      assert InOrder(s, Entries(s.threads[t].pc.batch, s.threads[t].pc.key));
      assert ThreadFits(s.coordinator, s.threads[t]);
    } else {
      assert InOrder(s, []);
    }
  }
}
