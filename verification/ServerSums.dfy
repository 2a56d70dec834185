/** Sums over all threads of the server, and quantities read off the history. */
module ServerSums {
  import opened Basics
  import opened Coordinator
  import opened ServerModel

  // ----- Classes of program counters -----

  predicate HoldsPermit(pc: Pc) {
    !pc.Loading? && !pc.Trying? && !pc.TurnedAway? && !pc.Gone?
  }

  /** The id of the thread's own request is still with the thread. */
  predicate HoldsOwnId(pc: Pc) {
    || pc.Loading? || pc.Trying? || pc.TurnedAway? || pc.Spawning?
    || pc.Snapshotting? || pc.Registering? || pc.Rejected? || pc.CheckingIdle? || pc.Parked?
    || pc.ConfigLocking? || pc.ConfigReading? || pc.ConfigApplying? || pc.ConfigRollingBack?
    || pc.ConfigCommitting? || pc.ConfigReplying?
  }

  /** The thread may still enter its id into the coordinator. */
  predicate MayRegister(pc: Pc) {
    || pc.Loading? || pc.Trying? || pc.Spawning?
    || pc.Snapshotting? || pc.Registering? || pc.CheckingIdle? || pc.Parked?
  }

  /** Bounds the steps a report still takes. */
  function LaneRank(lane: Lane): nat {
    4 * lane.waiting + 3 * lane.outside + 2 * lane.locked + lane.approved
  }

  function CrewRank(crew: Crew): nat {
    LaneRank(crew.installations) + LaneRank(crew.managers) + LaneRank(crew.events)
  }

  lemma NobodyRank()
    ensures CrewRank(NOBODY) == 0
  {
  }

  /** Each step of a report lowers the rank. */
  lemma ReportedRank(pc: Pc, step: ScanStep, current: bool)
    requires pc.Reporting? && IsReportStep(step) && ReportEnabled(pc.todo, pc.crew, step)
    ensures var after := Reported(pc, step, current);
            5 * after.todo + CrewRank(after.crew) < 5 * pc.todo + CrewRank(pc.crew)
  {
    hide LaneRank;
    LaneStepRank(pc.crew.Of(step.kind), step, current);
  }

  lemma LaneStepRank(lane: Lane, step: ScanStep, current: bool)
    requires IsReportStep(step)
    requires step.TakeIndex? ==> 0 < lane.waiting
    requires step.BeginReport? || step == QuitReport(step.kind, Outside) ==> 0 < lane.outside
    requires step.CheckReport? || step == QuitReport(step.kind, Locked) ==> 0 < lane.locked
    requires step.EmitReport? || step == QuitReport(step.kind, Approved) ==> 0 < lane.approved
    ensures var after := LaneAfter(lane, step, current);
            if step.StartReport? then LaneRank(after) == LaneRank(lane) + 4 else LaneRank(after) < LaneRank(lane)
  {
  }

  function PartRank(part: Part, stores: nat): nat {
    match part case Discovery => 60 + 2 * stores case Merge => 20 case Telemetry => 2
  }

  /** Bounds the steps a thread takes alone. A thread in the refresh loop moves
      towards registering while the coordinator is idle and towards parking while
      it is not, so its rank depends on which; a compare-and-swap succeeds at once
      when the value it observed is the current one. */
  function RankOf(pc: Pc, idle: bool, active: nat, stores: nat): nat {
    match pc
    case Loading => 20
    case Trying(observed) => if observed >= MAX_ACTIVE_REQUESTS then 16 else if observed == active then 17 else 18
    case TurnedAway(_) => 1
    case Spawning => 15
    case Snapshotting => if idle then 6 else 9
    case Registering(_) => if idle then 5 else 8
    case Rejected => 4
    case CheckingIdle => 7
    case Parked => 3
    case Reporting(_, todo, crew, part) => PartRank(part, stores) + 5 * todo + CrewRank(crew)
    case SyncChecking(_) => 50 + 2 * stores
    case Syncing(_, _, step) => 40 + if step <= 2 * stores then 2 * stores - step else 0
    case Ending(_, _) => 15
    case Draining(_, _) => 8
    case Replying(_, _, batch) => if batch == [] then 10 else 7
    case Checking(_, _) => 9
    case ConfigLocking => 6
    case ConfigReading => 5
    case ConfigApplying(_, _) => 4
    case ConfigRollingBack(_) => 3
    case ConfigCommitting(_, _) => 3
    case ConfigReplying(_) => 2
    case Leaving => 1
    case Gone => 0
  }

  // ----- Tickets -----

  /** How often a ticket stands in a list of refresh ids. */
  function TicketCount(ids: seq<RequestId>, ticket: Ticket): nat {
    if ticket.RefreshTicket? then multiset(ids)[ticket.id] else 0
  }

  /** How often the thread itself has to reply to a ticket. */
  function Owed(th: Thread, ticket: Ticket): nat {
    if HoldsOwnId(th.pc) then if TicketOf(th.request) == ticket then 1 else 0
    else if th.pc.Replying? then TicketCount(th.pc.batch, ticket)
    else 0
  }

  // ----- Sums -----

  /** The quantities summed over threads. */
  datatype Weight =
    | Permits        // request permits held
    | Unregistered   // ids that may still enter the coordinator
    | Owes(ticket: Ticket)  // how often the thread itself has to reply to a ticket
    | OwesPair(id: RequestId, key: RefreshKey)  // the same for an id drained for a key
    | InHand         // ids the thread itself has to reply to
    | Accepted       // own refresh ids that hold a permit and have no reply yet
    | Batched        // ids in drained batches
    | Changes        // changes of the active counter still to come
    | Rank(idle: bool, active: nat, stores: nat)

  function WeightOf(th: Thread, w: Weight): nat {
    match w
    case Permits => if HoldsPermit(th.pc) then 1 else 0
    case Unregistered => if MayRegister(th.pc) then 1 else 0
    case Owes(ticket) => Owed(th, ticket)
    case OwesPair(id, key) => if th.pc.Replying? && th.pc.key == key then multiset(th.pc.batch)[id] else 0
    case InHand => if HoldsOwnId(th.pc) then 1 else if th.pc.Replying? then |th.pc.batch| else 0
    case Accepted => if HoldsOwnId(th.pc) && HoldsPermit(th.pc) && th.request.Refresh? then 1 else 0
    case Batched => if th.pc.Replying? then |th.pc.batch| else 0
    case Changes => if th.pc.Loading? || th.pc.Trying? then 2 else if HoldsPermit(th.pc) then 1 else 0
    case Rank(idle, active, stores) => RankOf(th.pc, idle, active, stores)
  }

  ghost function Sum(m: map<Tid, Thread>, w: Weight): nat
    decreases |m|
  {
    if m == map[] then 0
    else
      var t :| t in m;
      WeightOf(m[t], w) + Sum(m - {t}, w)
  }

  lemma {:induction false} SumRemove(m: map<Tid, Thread>, t: Tid, w: Weight)
    requires t in m
    ensures Sum(m, w) == WeightOf(m[t], w) + Sum(m - {t}, w)
    decreases |m|
  {
    var u :| u in m && Sum(m, w) == WeightOf(m[u], w) + Sum(m - {u}, w);
    if u != t {
      SumRemove(m - {u}, t, w);
      SumRemove(m - {t}, u, w);
      assert m - {u} - {t} == m - {t} - {u};
    }
  }

  lemma SumSet(m: map<Tid, Thread>, t: Tid, th: Thread, w: Weight)
    ensures Sum(m[t := th], w) == Sum(m, w) + WeightOf(th, w) - if t in m then WeightOf(m[t], w) else 0
  {
    SumRemove(m[t := th], t, w);
    if t in m {
      SumRemove(m, t, w);
      assert m[t := th] - {t} == m - {t};
    } else {
      assert m[t := th] - {t} == m;
    }
  }

  /** Weights that agree (or are bounded) thread by thread do so in the sum. */
  lemma {:induction false} SumAtMost(m: map<Tid, Thread>, v: Weight, n: map<Tid, Thread>, w: Weight)
    requires m.Keys == n.Keys
    requires forall t | t in m :: WeightOf(m[t], v) <= WeightOf(n[t], w)
    ensures Sum(m, v) <= Sum(n, w)
    decreases |m|
  {
    if m == map[] {
      assert n == map[];
    } else {
      hide WeightOf, Sum;
      var t :| t in m;
      SumRemove(m, t, v);
      SumRemove(n, t, w);
      SumAtMost(m - {t}, v, n - {t}, w);
    }
  }

  // ----- Quantities read off the history -----

  /** The things counted in a history. */
  datatype Tally =
    | Receipts(ticket: Ticket)
    | Replies(ticket: Ticket)                 // results, errors and refusals alike
    | Joins(id: RequestId, key: RefreshKey)   // entries of the id under the key
    | Answers(id: RequestId, key: RefreshKey) // replies to the id by a scan of the key

  function CountOf(e: Event, tally: Tally): nat {
    match tally
    case Receipts(x) => if e == Received(x) then 1 else 0
    case Replies(x) =>
      if || (e.Answered? && x == RefreshTicket(e.id))
         || (e.Refused? && x == e.ticket)
         || (e.ConfigureAnswered? && x == ConfigureTicket(e.id))
      then 1 else 0
    case Joins(id, key) => if e == Joining(id, key) then 1 else 0
    case Answers(id, key) => if e.Answered? && e.id == id && e.key == key then 1 else 0
  }

  function Count(trace: Trace, tally: Tally): nat {
    if trace == [] then 0
    else Count(trace[..|trace| - 1], tally) + CountOf(trace[|trace| - 1], tally)
  }

  lemma CountAppend(trace: Trace, e: Event, tally: Tally)
    ensures Count(trace + [e], tally) == Count(trace, tally) + CountOf(e, tally)
  {
    assert (trace + [e])[..|trace|] == trace;
  }

  /** The number of successful configures. */
  function GenerationIn(trace: Trace): nat {
    if trace == [] then 0
    else GenerationIn(trace[..|trace| - 1]) + if trace[|trace| - 1].Committed? then 1 else 0
  }

  /** Every successful configure applied to the result of the one before it. */
  function ConfigurationIn(trace: Trace): Configuration {
    if trace == [] then Configuration(None, "")
    else
      var e := trace[|trace| - 1];
      var before := ConfigurationIn(trace[..|trace| - 1]);
      if e.Committed? then NextConfiguration(before, e.change) else before
  }

  /** The discovery state after the finished syncs, one after the other. */
  function StoresIn(trace: Trace, initial: seq<Store>): (r: seq<Store>)
    ensures |r| == |initial|
  {
    if trace == [] then initial
    else
      var e := trace[|trace| - 1];
      var before := StoresIn(trace[..|trace| - 1], initial);
      if e.Synced? && |e.found| == |before| then
        seq(|before|, i requires 0 <= i < |before| => SyncedStore(before[i], e.scope, e.found[i]))
      else before
  }

  /** Every notification and every sync carries the generation that is current
      at that point of the history, and commits count up by one. */
  ghost predicate GenerationsFit(trace: Trace) {
    forall i | 0 <= i < |trace| ::
      && (trace[i].Notified? ==> trace[i].generation == GenerationIn(trace[..i]))
      && (trace[i].Synced? ==> trace[i].generation == GenerationIn(trace[..i]))
      && (trace[i].Committed? ==> trace[i].generation == GenerationIn(trace[..i]) + 1)
  }

  lemma GenerationsFitAppend(trace: Trace, e: Event)
    requires GenerationsFit(trace)
    requires e.Notified? || e.Synced? ==> e.generation == GenerationIn(trace)
    requires e.Committed? ==> e.generation == GenerationIn(trace) + 1
    ensures GenerationsFit(trace + [e])
  {
    var after := trace + [e];
    forall i | 0 <= i < |after| ensures after[..i] == trace[..i] && (i < |trace| ==> after[i] == trace[i])
    {
      if i == |trace| { assert trace[..i] == trace; }
    }
    assert trace[..|trace|] == trace;
  }
}
