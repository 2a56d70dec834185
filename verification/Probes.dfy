/** The registry of probe processes and its shutdown, as steps of any number of
    threads. A child's strong count is positive while its owner or a shutdown
    call holds it; once it falls to zero the child is in its own drop. */
module Probes {
  type ChildId = nat
  type CallId = nat

  datatype Child = Child(owned: bool, gone: bool)

  /** A shutdown call: children taken and not yet looked at, and children held. */
  datatype Call = Call(pending: seq<ChildId>, held: seq<ChildId>)
  {
    predicate Returned() { pending == [] && held == [] }
  }

  datatype State = State(stopped: bool, registry: seq<ChildId>, children: map<ChildId, Child>, calls: map<CallId, Call>,
                         first: CallId)

  const START := State(false, [], map[], map[], 0)

  predicate HeldBy(s: State, c: ChildId, k: CallId) {
    k in s.calls && c in s.calls[k].held
  }

  /** The strong count is positive. */
  ghost predicate Live(s: State, c: ChildId) {
    c in s.children && (s.children[c].owned || exists k :: HeldBy(s, c, k))
  }

  datatype Step =
    | Spawn(c: ChildId, kept: seq<ChildId>)   // `kept` is what pruning leaves
    | OwnerDrops(c: ChildId)
    | Exits(c: ChildId)                       // by itself, or at the end of its drop
    | Stop(k: CallId)
    | Upgrade(k: CallId)
    | Terminate(k: CallId)
    | Release(k: CallId)

  /** Pruning drops dead children only. A child that dies while others are still
      looked at may be kept. */
  ghost predicate Prunes(s: State, kept: seq<ChildId>) {
    && (forall c | c in kept :: c in s.registry)
    && (forall c | c in s.registry && Live(s, c) :: c in kept)
  }

  ghost predicate Enabled(s: State, a: Step) {
    match a
    case Spawn(c, kept) => !s.stopped && c !in s.children && Prunes(s, kept)
    case OwnerDrops(c) => c in s.children && s.children[c].owned
    case Exits(c) => c in s.children && !s.children[c].gone
    case Stop(k) => k !in s.calls
    case Upgrade(k) => k in s.calls && s.calls[k].pending != []
    case Terminate(k) =>
      && k in s.calls && s.calls[k].pending == [] && s.calls[k].held != []
      && s.calls[k].held[0] in s.children && !s.children[s.calls[k].held[0]].gone
    case Release(k) =>
      && k in s.calls && s.calls[k].pending == [] && s.calls[k].held != []
      && s.calls[k].held[0] in s.children && s.children[s.calls[k].held[0]].gone
  }

  ghost function Apply(s: State, a: Step): State
    requires Enabled(s, a)
  {
    match a
    case Spawn(c, kept) => s.(registry := kept + [c], children := s.children[c := Child(true, false)])
    case OwnerDrops(c) => s.(children := s.children[c := s.children[c].(owned := false)])
    case Exits(c) => s.(children := s.children[c := s.children[c].(gone := true)])
    case Stop(k) =>
      s.(stopped := true, registry := [], calls := s.calls[k := Call(s.registry, [])],
         first := if s.stopped then s.first else k)
    case Upgrade(k) =>
      var call := s.calls[k];
      var c := call.pending[0];
      s.(calls := s.calls[k := Call(call.pending[1..], if Live(s, c) then call.held + [c] else call.held)])
    case Terminate(k) =>
      var c := s.calls[k].held[0];
      s.(children := s.children[c := s.children[c].(gone := true)])
    case Release(k) => s.(calls := s.calls[k := s.calls[k].(held := s.calls[k].held[1..])])
  }

  ghost predicate Moves(s: State, a: Step, t: State) {
    Enabled(s, a) && t == Apply(s, a)
  }

  ghost predicate CanBecome(s: State, t: State) {
    exists a :: Moves(s, a, t)
  }

  ghost predicate Follows(run: seq<State>) {
    && |run| > 0 && run[0] == START
    && forall i | 0 < i < |run| :: CanBecome(run[i - 1], run[i])
  }

  ghost predicate Reachable(s: State) {
    exists run :: Follows(run) && run[|run| - 1] == s
  }

  // ----- The registry object -----

  /** The state behind the mutex; each method is one critical section. */
  class ProbeRegistry {
    var stopped: bool
    var children: seq<ChildId>

    constructor ()
      ensures !stopped && children == []
    {
      stopped, children := false, [];
    }

    /** `alive` answers whether the strong count of an entry was positive when
        pruning came to it. The result says whether the child was registered. */
    method SpawnProbe(child: ChildId, alive: set<ChildId>) returns (registered: bool)
      modifies this
      ensures stopped == old(stopped) && registered == !stopped
      ensures stopped ==> children == old(children)
      ensures !stopped ==> |children| > 0 && children[|children| - 1] == child
      ensures !stopped ==> forall c :: c in children[..|children| - 1] <==> c in old(children) && c in alive
    {
      if stopped { return false; }
      var kept: seq<ChildId> := [];
      for i := 0 to |children|
        invariant children == old(children) && !stopped
        invariant forall c :: c in kept <==> c in children[..i] && c in alive
      {
        assert children[..i + 1] == children[..i] + [children[i]];
        if children[i] in alive { kept := kept + [children[i]]; }
      }
      assert children[..|children|] == children;
      children := kept + [child];
      return true;
    }

    method Stop() returns (taken: seq<ChildId>)
      modifies this
      ensures stopped && children == [] && taken == old(children)
    {
      stopped := true;
      taken := children;
      children := [];
    }
  }

  /** What the object does on a spawn is a step of the model. */
  lemma SpawnIsStep(s: State, child: ChildId, alive: set<ChildId>, after: seq<ChildId>)
    requires !s.stopped && child !in s.children && after != [] && after[|after| - 1] == child
    requires forall c :: c in after[..|after| - 1] <==> c in s.registry && c in alive
    requires forall c | c in s.registry && Live(s, c) :: c in alive
    ensures var kept := after[..|after| - 1];
            Enabled(s, Spawn(child, kept)) && Apply(s, Spawn(child, kept)).registry == after
  {
    assert after == after[..|after| - 1] + [child];
  }

  // ----- Invariants -----

  ghost predicate RegistryFits(s: State) {
    && (s.stopped ==> s.registry == [])
    && (!s.stopped ==> s.calls == map[] && forall c | Live(s, c) :: c in s.registry)
  }

  ghost predicate CallsFit(s: State) {
    && (forall c | c in s.registry :: c in s.children)
    && (forall k, c | k in s.calls && c in s.calls[k].pending + s.calls[k].held :: c in s.children)
    && (s.stopped ==> s.first in s.calls)
  }

  /** After the stop, whatever still runs with a live holder is known to the call that stopped. */
  ghost predicate Accounted(s: State) {
    s.stopped && s.first in s.calls ==>
      forall c | c in s.children && !s.children[c].gone && Live(s, c) ::
        c in s.calls[s.first].pending + s.calls[s.first].held
  }

  ghost predicate Good(s: State) {
    RegistryFits(s) && CallsFit(s) && Accounted(s)
  }

  /** A child in its own drop stays there: no step takes a reference from nothing. */
  lemma DeadStaysDead(s: State, a: Step, c: ChildId)
    requires Enabled(s, a) && c in s.children && !Live(s, c)
    ensures c in Apply(s, a).children && !Live(Apply(s, a), c)
  {
    var t := Apply(s, a);
    assert !t.children[c].owned;
    forall k ensures !HeldBy(t, c, k) {
      assert !HeldBy(s, c, k);
    }
  }

  lemma StepRegistryFits(s: State, a: Step)
    requires Good(s) && Enabled(s, a)
    ensures RegistryFits(Apply(s, a))
  {
    var t := Apply(s, a);
    if !t.stopped {
      forall c | Live(t, c) ensures c in t.registry {
        if c in s.children && !Live(s, c) { DeadStaysDead(s, a, c); }
      }
    }
  }

  lemma StepCallsFit(s: State, a: Step)
    requires Good(s) && Enabled(s, a)
    ensures CallsFit(Apply(s, a))
  {
    var t := Apply(s, a);
    assert s.children.Keys <= t.children.Keys;
    forall k, c | k in t.calls && c in t.calls[k].pending + t.calls[k].held ensures c in t.children {
      if a.Stop? && k == a.k {
        assert c in s.registry;
      } else {
        assert c in s.calls[k].pending + s.calls[k].held;
      }
    }
  }

  lemma StepAccounted(s: State, a: Step)
    requires Good(s) && Enabled(s, a) && CallsFit(Apply(s, a))
    ensures Accounted(Apply(s, a))
  {
    var t := Apply(s, a);
    if t.stopped {
      forall c | c in t.children && !t.children[c].gone && Live(t, c)
        ensures c in t.calls[t.first].pending + t.calls[t.first].held
      {
        if !Live(s, c) { DeadStaysDead(s, a, c); }
        assert Live(s, c) && !s.children[c].gone;
        if s.stopped {
          AccountedStays(s, a, c);
        }
      }
    }
  }

  lemma AccountedStays(s: State, a: Step, c: ChildId)
    requires Enabled(s, a) && s.stopped && s.first in s.calls
    requires c in s.calls[s.first].pending + s.calls[s.first].held
    requires Live(s, c) && c in Apply(s, a).children && !Apply(s, a).children[c].gone
    ensures var t := Apply(s, a);
            t.first == s.first && t.first in t.calls && c in t.calls[t.first].pending + t.calls[t.first].held
  {
    var call := s.calls[s.first];
    if a == Upgrade(s.first) {
      assert call.pending == [call.pending[0]] + call.pending[1..];
    } else if a == Release(s.first) {
      assert call.held == [call.held[0]] + call.held[1..];
    }
  }

  lemma StepGood(s: State, a: Step)
    requires Good(s) && Enabled(s, a)
    ensures Good(Apply(s, a))
  {
    StepRegistryFits(s, a);
    StepCallsFit(s, a);
    StepAccounted(s, a);
  }

  lemma {:induction false} RunGood(run: seq<State>)
    requires Follows(run)
    ensures Good(run[|run| - 1])
  {
    if |run| > 1 {
      var before := run[..|run| - 1];
      RunGood(before);
      assert CanBecome(run[|run| - 2], run[|run| - 1]);
      var a :| Moves(run[|run| - 2], a, run[|run| - 1]);
      StepGood(run[|run| - 2], a);
    }
  }

  // ----- What the shutdown promises -----

  /** Before the stop, pruning never loses a child that somebody holds. */
  lemma LiveChildrenRegistered(s: State, c: ChildId)
    requires Reachable(s) && !s.stopped && Live(s, c)
    ensures c in s.registry
  {
    var run :| Follows(run) && run[|run| - 1] == s;
    RunGood(run);
  }

  /** After the stop no run has a child more. */
  lemma {:induction false} NothingSpawnsAfterStop(s: State, steps: seq<Step>, run: seq<State>)
    requires s.stopped && |run| == |steps| + 1 && run[0] == s
    requires forall i | 0 <= i < |steps| :: Enabled(run[i], steps[i]) && run[i + 1] == Apply(run[i], steps[i])
    ensures run[|steps|].stopped && run[|steps|].children.Keys == s.children.Keys
  {
    if steps != [] {
      var n := |steps| - 1;
      NothingSpawnsAfterStop(s, steps[..n], run[..n + 1]);
      assert run[..n + 1][n] == run[n];
      assert run[n + 1] == Apply(run[n], steps[n]);
    }
  }

  /** When the call that stopped the registry returns, every child ever spawned is
      gone or already in its own drop. */
  lemma ShutdownReaps(s: State, c: ChildId)
    requires Reachable(s) && s.stopped && c in s.children
    ensures s.first in s.calls
    ensures s.calls[s.first].Returned() ==> s.children[c].gone || !Live(s, c)
  {
    var run :| Follows(run) && run[|run| - 1] == s;
    RunGood(run);
  }

  /** Any other call may return earlier: it finds the registry empty. */
  lemma SecondCallReturnsEarly()
    ensures exists s :: Reachable(s) && 1 in s.calls && s.calls[1].Returned() && s.first == 0
                        && 7 in s.children && !s.children[7].gone && Live(s, 7)
  {
    var a := Apply(START, Spawn(7, []));
    var b := Apply(a, Stop(0));
    var s := Apply(b, Stop(1));
    var run := [START, a, b, s];
    assert Moves(run[0], Spawn(7, []), run[1]) && Moves(run[1], Stop(0), run[2]) && Moves(run[2], Stop(1), run[3]);
    assert Follows(run);
    assert run[|run| - 1] == s && s.children[7].owned;
  }

  // ----- The shutdown returns -----

  ghost function Remaining(s: State, k: CallId): int
    requires k in s.calls
  {
    var call := s.calls[k];
    3 * |call.pending| + 2 * |call.held|
      - if call.held != [] && call.held[0] in s.children && s.children[call.held[0]].gone then 1 else 0
  }

  /** A call that has not returned can take a step, and each of its steps leaves
      less to do, whatever the others do in between. */
  lemma ShutdownProgress(s: State, a: Step, k: CallId)
    requires Good(s) && Enabled(s, a) && k in s.calls
    ensures 0 <= Remaining(Apply(s, a), k) <= Remaining(s, k)
    ensures a == Upgrade(k) || a == Terminate(k) || a == Release(k) ==> Remaining(Apply(s, a), k) < Remaining(s, k)
    ensures s.calls[k].Returned() <==> !(Enabled(s, Upgrade(k)) || Enabled(s, Terminate(k)) || Enabled(s, Release(k)))
  {
    var call := s.calls[k];
    if call.held != [] {
      assert call.held[0] in call.pending + call.held;
    }
  }
}
