/** The three-state refresh coordinator: a registration starts a scan, joins the
    running one, must wait for it, or is refused. */
module Coordinator {
  import opened Basics

  const MAX_JOINED_REFRESH_REQUESTS: nat := 256

  /** A JSON-RPC id. A client may use one id for several requests. */
  datatype RequestId = NullId | NumberId(number: int) | TextId(text: string)

  type InstallationKind = string
  type Path = string

  datatype RefreshOptions = RefreshOptions(searchKind: Option<InstallationKind>, searchPaths: Option<seq<Path>>)
  datatype RefreshKey = RefreshKey(options: RefreshOptions, generation: nat)

  datatype CoordinatorState =
    | Idle
    | Running(key: RefreshKey, ids: seq<RequestId>)
    | Completing(key: RefreshKey, ids: seq<RequestId>)
  {
    /** The ids whose replies the current scan owes and has not yet drained. */
    function Waiting(): seq<RequestId> { if Idle? then [] else ids }
  }

  datatype Registration = Start | Joined | Wait | Busy

  // ----- What each critical section does to the state -----

  function Registered(s: CoordinatorState, id: RequestId, key: RefreshKey): (CoordinatorState, Registration) {
    if s.Idle? then (Running(key, [id]), Start)
    else if s.key != key then (s, Wait)
    else if |s.ids| >= MAX_JOINED_REFRESH_REQUESTS then (s, Busy)
    else (s.(ids := s.ids + [id]), Joined)
  }

  /** `None` where the source panics on a key or state mismatch. */
  function CompletionBegun(s: CoordinatorState, key: RefreshKey): Option<CoordinatorState> {
    if s.Running? && s.key == key then Some(Completing(key, s.ids)) else None
  }

  function Drained(s: CoordinatorState, key: RefreshKey): Option<(CoordinatorState, seq<RequestId>)> {
    if s.Completing? && s.key == key then Some((Completing(key, []), s.ids))
    else if s.Idle? then Some((Idle, []))
    else None
  }

  function CompletedIfEmpty(s: CoordinatorState, key: RefreshKey): Option<(CoordinatorState, bool)> {
    if s.Completing? && s.key == key then Some(if s.ids == [] then (Idle, true) else (s, false)) else None
  }

  function ForcedIdle(s: CoordinatorState, key: RefreshKey): CoordinatorState {
    if !s.Idle? && s.key == key then Idle else s
  }

  /** The object behind the mutex. Each method is one critical section;
      `notifications` counts the calls of `notify_all`. */
  class RefreshCoordinator {
    var state: CoordinatorState
    var notifications: nat

    constructor ()
      ensures state == Idle && notifications == 0
    {
      state, notifications := Idle, 0;
    }

    method Register(id: RequestId, key: RefreshKey) returns (r: Registration)
      modifies this
      ensures (state, r) == Registered(old(state), id, key)
      ensures notifications == old(notifications)
      // Which of the four outcomes it is.
      ensures r.Start? <==> old(state).Idle?
      ensures r.Wait? <==> !old(state).Idle? && old(state).key != key
      ensures r.Busy? <==> !old(state).Idle? && old(state).key == key && |old(state).ids| >= 256
      ensures r.Joined? <==> !old(state).Idle? && old(state).key == key && |old(state).ids| < 256
      // A registration adds exactly the id, and joining keeps the phase of the scan.
      ensures r.Start? ==> state == Running(key, [id])
      ensures r.Joined? ==> state == old(state).(ids := old(state).ids + [id])
      ensures r.Wait? || r.Busy? ==> state == old(state)
      ensures |old(state).Waiting()| <= 256 ==> |state.Waiting()| <= 256
    {
      match state {
        case Idle =>
          state := Running(key, [id]);
          return Start;
        case Running(activeKey, ids) =>
          if activeKey != key { return Wait; }
          if |ids| >= MAX_JOINED_REFRESH_REQUESTS { return Busy; }
          state := Running(activeKey, ids + [id]);
          return Joined;
        case Completing(activeKey, ids) =>
          if activeKey != key { return Wait; }
          if |ids| >= MAX_JOINED_REFRESH_REQUESTS { return Busy; }
          state := Completing(activeKey, ids + [id]);
          return Joined;
      }
    }

    /** `wait_until_idle`. The wait gives the mutex away; `found` has the states found
        when it is held again after each wake-up, spurious ones included, and one of
        them is idle if the wait ends at all. */
    method WaitUntilIdle(found: seq<CoordinatorState>) returns (wakeups: nat)
      requires state.Idle? || exists i :: 0 <= i < |found| && found[i].Idle?
      modifies `state
      // It returns with the mutex as soon as the state is found idle, and not before.
      ensures state.Idle? && (wakeups == 0 <==> old(state).Idle?)
      ensures wakeups > 0 ==> wakeups <= |found| && found[wakeups - 1] == state
      ensures forall i | 0 <= i < wakeups - 1 :: !found[i].Idle?
    {
      wakeups := 0;
      while !state.Idle?
        invariant wakeups <= |found|
        invariant wakeups == 0 ==> state == old(state)
        invariant wakeups > 0 ==> !old(state).Idle? && found[wakeups - 1] == state
        invariant forall i | 0 <= i < wakeups - 1 :: !found[i].Idle?
        decreases |found| - wakeups
      {
        state := found[wakeups];
        wakeups := wakeups + 1;
      }
    }

    method BeginCompletion(key: RefreshKey) returns (panicked: bool)
      modifies this
      ensures panicked <==> CompletionBegun(old(state), key).None?
      ensures !panicked ==> CompletionBegun(old(state), key) == Some(state)
      ensures !panicked <==> old(state).Running? && old(state).key == key
      ensures state == if panicked then old(state) else Completing(key, old(state).ids)
      ensures notifications == old(notifications)
    {
      // The source takes the state out and puts it back before it panics.
      var taken := state;
      state := Idle;
      if taken.Running? && taken.key == key {
        state := Completing(taken.key, taken.ids);
        return false;
      }
      state := taken;
      return true;
    }

    method DrainRequestIds(key: RefreshKey) returns (panicked: bool, batch: seq<RequestId>)
      modifies this
      ensures panicked <==> Drained(old(state), key).None?
      ensures !panicked ==> (state, batch) == Drained(old(state), key).value
      ensures panicked <==> old(state).Running? || (old(state).Completing? && old(state).key != key)
      // The whole list is handed over: nothing is lost and nothing is invented.
      ensures !panicked ==> state == if old(state).Idle? then Idle else Completing(key, [])
      ensures !panicked ==> batch + state.Waiting() == old(state).Waiting()
      ensures panicked ==> state == old(state) && batch == []
      ensures notifications == old(notifications)
    {
      if state.Completing? && state.key == key {
        batch := state.ids;
        state := Completing(state.key, []);
        return false, batch;
      }
      return !state.Idle?, [];
    }

    method CompleteIfEmpty(key: RefreshKey) returns (panicked: bool, completed: bool)
      modifies this
      ensures panicked <==> CompletedIfEmpty(old(state), key).None?
      ensures !panicked ==> (state, completed) == CompletedIfEmpty(old(state), key).value
      ensures panicked ==> state == old(state) && !completed
      ensures panicked <==> !old(state).Completing? || old(state).key != key
      ensures completed <==> old(state) == Completing(key, [])
      ensures state == if completed then Idle else old(state)
      // The condition variable is notified exactly when the state becomes idle.
      ensures notifications == old(notifications) + if completed then 1 else 0
    {
      if state.Completing? && state.key == key {
        if state.ids == [] {
          state := Idle;
          notifications := notifications + 1;
          return false, true;
        }
        return false, false;
      }
      return true, false;
    }

    method ForceIdle(key: RefreshKey)
      modifies this
      ensures state == ForcedIdle(old(state), key)
      ensures state == old(state) || state.Idle?
      ensures state.Idle? <==> old(state).Idle? || old(state).key == key
      ensures notifications == old(notifications) + if state != old(state) then 1 else 0
    {
      if !state.Idle? && state.key == key {
        state := Idle;
        notifications := notifications + 1;
      }
    }
  }
}
