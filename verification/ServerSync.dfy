/** The discovery state is the fold of the finished syncs: although a sync takes
    many critical sections under a shared lock, no two of them interleave. */
module ServerSync {
  import opened Basics
  import opened Coordinator
  import opened ServerModel
  import opened ServerSums
  import opened ServerOwner

  /** A store after the first `step` critical sections of a sync, where the store
      at index `i` is touched by the sections `2 * i` and `2 * i + 1`. */
  function PartlySynced(base: Store, scope: SyncScope, found: map<Path, string>, i: nat, step: nat): Store {
    if 2 * i + 2 <= step then SyncedStore(base, scope, found)
    else if 2 * i + 1 == step then SyncStepped(base, scope, found, true)
    else base
  }

  ghost predicate SyncUnderWay(s: State, base: seq<Store>, pc: Pc)
    requires pc.Syncing?
  {
    && |pc.found| == |s.stores| == |base|
    && pc.step <= 2 * |base|
    && forall i | 0 <= i < |base| ::
         s.stores[i] == PartlySynced(base[i], ScopeOf(pc.key.options), pc.found[i], i, pc.step)
  }

  ghost predicate StoresFit(s: State, base: seq<Store>) {
    && (forall t | t in s.threads && s.threads[t].pc.Syncing? :: SyncUnderWay(s, base, s.threads[t].pc))
    && ((forall t | t in s.threads :: !s.threads[t].pc.Syncing?) ==> s.stores == base)
  }

  /** A sync that panicked half way ends the claim. */
  ghost predicate SyncFits(s: State, initial: seq<Store>) {
    s.syncsWhole ==> StoresFit(s, StoresIn(s.trace, initial))
  }

  /** Clearing and then inserting is the whole sync of a store. */
  lemma TwoSections(base: Store, scope: SyncScope, found: map<Path, string>)
    ensures SyncStepped(SyncStepped(base, scope, found, true), scope, found, false) == SyncedStore(base, scope, found)
  {
    assert map[] + found == found;
  }

  /** A step outside the sync section. */
  lemma UnsyncedStep(s: State, s': State, t: Tid, pc: Pc, base: seq<Store>)
    requires StoresFit(s, base) && t in s.threads
    requires s'.stores == s.stores && s'.threads == Moved(s, t, pc).threads
    requires !s.threads[t].pc.Syncing? && !pc.Syncing?
    ensures StoresFit(s', base)
  {
    if u :| u in s.threads && s.threads[u].pc.Syncing? {
      assert u in s'.threads && s'.threads[u].pc.Syncing?;
    }
  }

  lemma WokenSync(s: State, base: seq<Store>)
    requires StoresFit(s, base)
    ensures StoresFit(s.(threads := Woken(s.threads)), base)
  {
    var s' := s.(threads := Woken(s.threads));
    if u :| u in s.threads && s.threads[u].pc.Syncing? {
      assert u in s'.threads && s'.threads[u].pc.Syncing?;
    }
  }

  lemma ArrivedSync(s: State, t: Tid, request: Request, base: seq<Store>)
    requires StoresFit(s, base) && t !in s.threads
    ensures StoresFit(Arrived(s, t, request), base)
  {
    var s' := Arrived(s, t, request);
    if u :| u in s.threads && s.threads[u].pc.Syncing? {
      assert u in s'.threads && s'.threads[u].pc.Syncing?;
    }
  }

  /** The owner alone can sync, so whoever is about to sync finds nobody there. */
  lemma SyncsAlone(s: State, t: Tid)
    requires OwnerFits(s) && t in s.threads && Owns(s.threads[t].pc)
    ensures forall u | u in s.threads && s.threads[u].pc.Syncing? :: u == t
  {
  }

  lemma BeginSection(s: State, t: Tid, found: Found, base: seq<Store>)
    requires OwnerFits(s) && StoresFit(s, base)
    requires t in s.threads && ScanEnabled(s, t, CheckSync(found))
    ensures StoresFit(ScanApply(s, t, CheckSync(found)), base)
  {
    SyncsAlone(s, t);
    assert s.stores == base;
  }

  lemma StepSection(s: State, t: Tid, base: seq<Store>)
    requires OwnerFits(s) && StoresFit(s, base)
    requires t in s.threads && ScanEnabled(s, t, SyncStep)
    ensures StoresFit(ScanApply(s, t, SyncStep), base)
  {
    SyncsAlone(s, t);
    var s' := ScanApply(s, t, SyncStep);
    var pc := s.threads[t].pc;
    assert SyncUnderWay(s, base, pc);
    var k := pc.step / 2;
    var scope := ScopeOf(pc.key.options);
    TwoSections(base[k], scope, pc.found[k]);
    forall i | 0 <= i < |base| ensures s'.stores[i] == PartlySynced(base[i], scope, pc.found[i], i, pc.step + 1) {
      assert i == k || s'.stores[i] == s.stores[i];
    }
    assert SyncUnderWay(s', base, s'.threads[t].pc);
    assert s'.threads[t].pc.Syncing?;
  }

  lemma EndSection(s: State, t: Tid, initial: seq<Store>)
    requires OwnerFits(s) && SyncFits(s, initial) && s.syncsWhole
    requires t in s.threads && ScanEnabled(s, t, EndSync)
    ensures SyncFits(ScanApply(s, t, EndSync), initial)
  {
    SyncsAlone(s, t);
    var s' := ScanApply(s, t, EndSync);
    var pc := s.threads[t].pc;
    var base := StoresIn(s.trace, initial);
    assert SyncUnderWay(s, base, pc);
    var e := Synced(pc.key.generation, ScopeOf(pc.key.options), pc.found);
    assert (s.trace + [e])[..|s.trace|] == s.trace;
    var after := StoresIn(s.trace + [e], initial);
    assert s.stores == after;
  }

  lemma SameStores(trace: Trace, e: Event, initial: seq<Store>)
    requires !e.Synced?
    ensures StoresIn(trace + [e], initial) == StoresIn(trace, initial)
  {
    assert (trace + [e])[..|trace|] == trace;
  }

  lemma SyncFitsKept(s: State, a: Action, initial: seq<Store>)
    requires OwnerFits(s) && SyncFits(s, initial) && Enabled(s, a)
    ensures SyncFits(Apply(s, a), initial)
  {
    if !Apply(s, a).syncsWhole {
      // nothing is claimed
    } else if a.Scan? && a.scan.EndSync? {
      EndSection(s, a.t, initial);
    } else {
      StoresFitKept(s, a, StoresIn(s.trace, initial));
      NoSyncLogged(s, a, initial);
    }
  }

  lemma NoSyncLogged(s: State, a: Action, initial: seq<Store>)
    requires Enabled(s, a) && !(a.Scan? && a.scan.EndSync?)
    ensures StoresIn(Apply(s, a).trace, initial) == StoresIn(s.trace, initial)
  {
    var s' := Apply(s, a);
    if s'.trace != s.trace {
      SameStores(s.trace, s'.trace[|s.trace|], initial);
    }
  }

  lemma StoresFitKept(s: State, a: Action, base: seq<Store>)
    requires OwnerFits(s) && StoresFit(s, base) && Enabled(s, a) && !(a.Scan? && a.scan.EndSync?)
    requires Apply(s, a).syncsWhole
    ensures StoresFit(Apply(s, a), base)
  {
    match a {
      case Arrive(t, request) => ArrivedSync(s, t, request, base);
      case Limit(t, step) => LimitSync(s, t, step, base);
      case Loop(t, step) => LoopSync(s, t, step, base);
      case Scan(t, step) => ScanSync(s, t, step, base);
      case Reply(t, step) => ReplySync(s, t, step, base);
      case Config(t, step) => ConfigSync(s, t, step, base);
    }
  }

  lemma LimitSync(s: State, t: Tid, step: LimitStep, base: seq<Store>)
    requires StoresFit(s, base) && t in s.threads && LimitEnabled(s, t, step)
    ensures StoresFit(LimitApply(s, t, step), base)
  {
    hide StoresFit;
    var s' := LimitApply(s, t, step);
    UnsyncedStep(s, s', t, s'.threads[t].pc, base);
  }

  lemma LoopSync(s: State, t: Tid, step: LoopStep, base: seq<Store>)
    requires StoresFit(s, base) && t in s.threads && LoopEnabled(s, t, step)
    ensures StoresFit(LoopApply(s, t, step), base)
  {
    hide StoresFit;
    var s' := LoopApply(s, t, step);
    UnsyncedStep(s, s', t, s'.threads[t].pc, base);
  }

  lemma ConfigSync(s: State, t: Tid, step: ConfigureStep, base: seq<Store>)
    requires StoresFit(s, base) && t in s.threads && ConfigEnabled(s, t, step)
    ensures StoresFit(ConfigApply(s, t, step), base)
  {
    hide StoresFit;
    var s' := ConfigApply(s, t, step);
    UnsyncedStep(s, s', t, s'.threads[t].pc, base);
  }

  lemma ScanSync(s: State, t: Tid, step: ScanStep, base: seq<Store>)
    requires OwnerFits(s) && StoresFit(s, base) && t in s.threads && ScanEnabled(s, t, step) && !step.EndSync?
    requires ScanApply(s, t, step).syncsWhole
    ensures StoresFit(ScanApply(s, t, step), base)
  {
    hide StoresFit;
    var s' := ScanApply(s, t, step);
    if step.CheckSync? {
      BeginSection(s, t, step.found, base);
    } else if step.SyncStep? {
      StepSection(s, t, base);
    } else {
      UnsyncedStep(s, s', t, s'.threads[t].pc, base);
    }
  }

  lemma ReplySync(s: State, t: Tid, step: ReplyStep, base: seq<Store>)
    requires StoresFit(s, base) && t in s.threads && ReplyEnabled(s, t, step)
    ensures StoresFit(ReplyApply(s, t, step), base)
  {
    hide StoresFit;
    var s' := ReplyApply(s, t, step);
    if step.Complete? && s.coordinator.ids == [] {
      WokenSync(s, base);
      UnsyncedStep(s.(threads := Woken(s.threads)), s', t, s'.threads[t].pc, base);
    } else {
      UnsyncedStep(s, s', t, s'.threads[t].pc, base);
    }
  }
}
