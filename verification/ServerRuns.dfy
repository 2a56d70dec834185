/** Runs of the server: what a step does to the other threads and to the trace. */
module ServerRuns {
  import opened Basics
  import opened Coordinator
  import opened ServerModel

  ghost predicate Run(states: seq<State>, actions: seq<Action>) {
    Follows(states, actions) && Init(states[0])
  }

  /** The step logs this event and no other. */
  predicate Logs(s: State, a: Action, e: Event) {
    Enabled(s, a) && Apply(s, a).trace == s.trace + [e]
  }

  /** A thread is left where it is, or woken up. */
  predicate Stays(before: Thread, after: Thread) {
    after == if before.pc.Parked? && after.pc.CheckingIdle? then before.(pc := CheckingIdle) else before
  }

  /** Only this thread has moved, and its request is the same; all others may have
      been woken. */
  predicate MovesOnly(s: State, s': State, t: Tid)
    requires t in s.threads
  {
    && t in s'.threads
    && var th := s.threads[t].(pc := s'.threads[t].pc);
       s'.threads == s.threads[t := th] || s'.threads == Woken(s.threads)[t := th]
  }

  lemma LimitMoves(s: State, t: Tid, step: LimitStep)
    requires t in s.threads && LimitEnabled(s, t, step)
    ensures MovesOnly(s, LimitApply(s, t, step), t)
  {
  }

  lemma LoopMoves(s: State, t: Tid, step: LoopStep)
    requires t in s.threads && LoopEnabled(s, t, step)
    ensures MovesOnly(s, LoopApply(s, t, step), t)
  {
  }

  lemma ScanMoves(s: State, t: Tid, step: ScanStep)
    requires t in s.threads && ScanEnabled(s, t, step)
    ensures MovesOnly(s, ScanApply(s, t, step), t)
  {
    hide ReportEnabled, Reported, SyncStepEffect, ScopeOf;
  }

  lemma ReplyMoves(s: State, t: Tid, step: ReplyStep)
    requires t in s.threads && ReplyEnabled(s, t, step)
    ensures MovesOnly(s, ReplyApply(s, t, step), t)
  {
  }

  lemma ConfigMoves(s: State, t: Tid, step: ConfigureStep)
    requires t in s.threads && ConfigEnabled(s, t, step)
    ensures MovesOnly(s, ConfigApply(s, t, step), t)
  {
  }

  lemma StepMoves(s: State, a: Action)
    requires Enabled(s, a) && !a.Arrive?
    ensures MovesOnly(s, Apply(s, a), a.t)
  {
    hide MovesOnly, LimitEnabled, LoopEnabled, ScanEnabled, ReplyEnabled, ConfigEnabled;
    hide LimitApply, LoopApply, ScanApply, ReplyApply, ConfigApply;
    match a
    case Limit(t, step) => LimitMoves(s, t, step);
    case Loop(t, step) => LoopMoves(s, t, step);
    case Scan(t, step) => ScanMoves(s, t, step);
    case Reply(t, step) => ReplyMoves(s, t, step);
    case Config(t, step) => ConfigMoves(s, t, step);
  }

  lemma OthersStay(s: State, a: Action, u: Tid)
    requires Enabled(s, a) && u != a.t
    ensures u in Apply(s, a).threads <==> u in s.threads
    ensures u in s.threads ==> Stays(s.threads[u], Apply(s, a).threads[u])
  {
    if !a.Arrive? {
      hide Enabled, Apply;
      StepMoves(s, a);
    }
  }

  /** A thread keeps the request it arrived with. */
  lemma OwnRequest(s: State, a: Action)
    requires Enabled(s, a)
    ensures a.t in Apply(s, a).threads
    ensures if a.Arrive? then Apply(s, a).threads[a.t] == Thread(a.request, Loading)
            else a.t in s.threads && Apply(s, a).threads[a.t].request == s.threads[a.t].request
  {
    if !a.Arrive? {
      assert a.t in s.threads;
      hide Enabled, Apply;
      StepMoves(s, a);
    }
  }

  lemma TraceGrows(s: State, a: Action) returns (es: seq<Event>)
    requires Enabled(s, a)
    ensures |es| <= 1 && Apply(s, a).trace == s.trace + es
  {
    es := Apply(s, a).trace[|s.trace|..];
  }

  /** Every event of the history was logged by a step of the run. */
  lemma {:induction false} LoggedAt(states: seq<State>, actions: seq<Action>, n: nat, p: nat) returns (i: nat)
    requires Run(states, actions) && n <= |actions| && p < |states[n].trace|
    ensures i < n && Logs(states[i], actions[i], states[n].trace[p])
  {
    hide Enabled, Apply;
    var es := TraceGrows(states[n - 1], actions[n - 1]);
    if p < |states[n - 1].trace| {
      i := LoggedAt(states, actions, n - 1, p);
    } else {
      i := n - 1;
      assert es == [states[n].trace[p]];
    }
  }

  lemma {:induction false} ArrivedAt(states: seq<State>, actions: seq<Action>, n: nat, t: Tid) returns (i: nat)
    requires Run(states, actions) && n <= |actions| && t in states[n].threads
    ensures i < n && actions[i] == Arrive(t, states[n].threads[t].request)
  {
    hide Enabled, Apply;
    var (s, a) := (states[n - 1], actions[n - 1]);
    if a.t == t {
      OwnRequest(s, a);
      if a.Arrive? {
        i := n - 1;
      } else {
        i := ArrivedAt(states, actions, n - 1, t);
      }
    } else {
      OthersStay(s, a, t);
      i := ArrivedAt(states, actions, n - 1, t);
    }
  }
}
