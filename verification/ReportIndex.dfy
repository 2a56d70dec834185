/** The keyed index of reported installations. */
module ReportIndex {
  import opened Basics
  import opened Sorting
  import opened Installation
  import opened InstallationKeys
  import opened Merging

  /** Merging two records of one key gives a record of that key. */
  lemma MergeKeepsKey(canonicalize: Canonicalize, a: RInstallation, b: RInstallation)
    requires KeyOf(canonicalize, a).Some? && KeyOf(canonicalize, a) == KeyOf(canonicalize, b)
    ensures KeyOf(canonicalize, MergeInstallations(a, b)) == KeyOf(canonicalize, a)
  {
    var m := MergedFields(a, b);
    var r := Build(m);
    var environment := KeyOf(canonicalize, a).value.environment;
    assert environment + environment == environment;
    assert m.environmentVariables.Some? ==> m.environmentVariables.value == environment;
    assert m.environmentVariables.None? ==> environment == map[];
  }

  // ----- Merging any number of reports -----

  /** The record after the reports of one key, in this order. */
  function MergeAll(reports: seq<RInstallation>): RInstallation
    requires reports != []
  {
    if |reports| == 1 then reports[0]
    else MergeInstallations(MergeAll(reports[..|reports| - 1]), reports[|reports| - 1])
  }

  ghost predicate AllBuilt(reports: seq<RInstallation>) {
    forall r | r in reports :: Built(r)
  }

  ghost function AllExecutables(reports: seq<RInstallation>): set<Path> {
    set r, x | r in Elements(reports) && x in Elements(OrEmpty(r.knownExecutables)) :: x
  }

  ghost function AllSymlinks(reports: seq<RInstallation>): set<Path> {
    set r, x | r in Elements(reports) && x in Elements(OrEmpty(r.symlinks)) :: x
  }

  ghost function AllSources(reports: seq<RInstallation>): set<DiscoverySource> {
    set r, x | r in Elements(reports) && x in Elements(r.discoveredBy) :: x
  }

  ghost predicate IsMaxPriority(p: nat, reports: seq<RInstallation>) {
    && (forall r | r in Elements(reports) :: PriorityOf(r.locatorMetadata) <= p)
    && exists r :: r in Elements(reports) && PriorityOf(r.locatorMetadata) == p
  }

  lemma ElementsAppend(reports: seq<RInstallation>, r: RInstallation)
    ensures Elements(reports + [r]) == Elements(reports) + {r}
  {
  }

  /** What the record has of the reports it was merged from. */
  ghost predicate Gathers(r: RInstallation, reports: seq<RInstallation>) {
    && Built(r)
    && Elements(OrEmpty(r.knownExecutables)) == AllExecutables(reports)
    && Elements(OrEmpty(r.symlinks)) == AllSymlinks(reports)
    && Elements(r.discoveredBy) == AllSources(reports)
    && IsMaxPriority(PriorityOf(r.locatorMetadata), reports)
    && forall x | x in Elements(reports) :: FieldsIn(x, r)
  }

  /** After any reports of one key the lists are the unions over all reports, the
      metadata has the highest priority of all, and no field of any is lost. */
  lemma {:induction false} MergeAllGathers(reports: seq<RInstallation>)
    requires reports != [] && AllBuilt(reports)
    ensures Gathers(MergeAll(reports), reports)
  {
    if |reports| == 1 {
      assert Elements(reports) == {reports[0]};
    } else {
      var (init, last) := (reports[..|reports| - 1], reports[|reports| - 1]);
      assert reports == init + [last];
      assert forall r | r in init :: r in reports;
      MergeAllGathers(init);
      GathersStep(MergeAll(init), init, last);
    }
  }

  lemma GathersStep(r: RInstallation, init: seq<RInstallation>, last: RInstallation)
    requires Gathers(r, init) && Built(last)
    ensures Gathers(MergeInstallations(r, last), init + [last])
  {
    ElementsAppend(init, last);
    MergeIsUnion(r, last);
    MaxPriorityStep(r, init, last);
    FieldsStep(r, init, last);
    UnionStep(init, last);
  }

  lemma UnionStep(init: seq<RInstallation>, last: RInstallation)
    ensures AllExecutables(init + [last]) == AllExecutables(init) + Elements(OrEmpty(last.knownExecutables))
    ensures AllSymlinks(init + [last]) == AllSymlinks(init) + Elements(OrEmpty(last.symlinks))
    ensures AllSources(init + [last]) == AllSources(init) + Elements(last.discoveredBy)
  {
    ElementsAppend(init, last);
  }

  lemma FieldsStep(r: RInstallation, init: seq<RInstallation>, last: RInstallation)
    requires Built(r) && Built(last) && forall x | x in Elements(init) :: FieldsIn(x, r)
    ensures forall x | x in Elements(init + [last]) :: FieldsIn(x, MergeInstallations(r, last))
  {
    ElementsAppend(init, last);
    NoFieldLost(r, last);
    forall x | x in Elements(init) ensures FieldsIn(x, MergeInstallations(r, last)) {
      FieldsTransitive(x, r, MergeInstallations(r, last));
    }
  }

  lemma FieldsTransitive(a: RInstallation, b: RInstallation, c: RInstallation)
    requires FieldsIn(a, b) && FieldsIn(b, c)
    ensures FieldsIn(a, c)
  {
  }

  lemma MaxPriorityStep(r: RInstallation, init: seq<RInstallation>, last: RInstallation)
    requires IsMaxPriority(PriorityOf(r.locatorMetadata), init)
    ensures IsMaxPriority(PriorityOf(SelectLocatorMetadata(r.locatorMetadata, last.locatorMetadata)), init + [last])
  {
    ElementsAppend(init, last);
    var best :| best in Elements(init) && PriorityOf(best.locatorMetadata) == PriorityOf(r.locatorMetadata);
    assert best in Elements(init + [last]) && last in Elements(init + [last]);
  }

  /** These parts of the record do not depend on the order of the reports. */
  lemma OrderDoesNotMatter(reports: seq<RInstallation>, other: seq<RInstallation>)
    requires reports != [] && other != [] && AllBuilt(reports) && AllBuilt(other)
    requires multiset(reports) == multiset(other)
    ensures MergeAll(reports).knownExecutables == MergeAll(other).knownExecutables
    ensures MergeAll(reports).symlinks == MergeAll(other).symlinks
    ensures MergeAll(reports).discoveredBy == MergeAll(other).discoveredBy
    ensures PriorityOf(MergeAll(reports).locatorMetadata) == PriorityOf(MergeAll(other).locatorMetadata)
  {
    SameElements(reports, other);
    MergeAllGathers(reports);
    MergeAllGathers(other);
    SameLists(MergeAll(reports), MergeAll(other));
    SamePriority(PriorityOf(MergeAll(reports).locatorMetadata), PriorityOf(MergeAll(other).locatorMetadata),
                 reports, other);
  }

  lemma SameElements(s: seq<RInstallation>, t: seq<RInstallation>)
    requires multiset(s) == multiset(t)
    ensures Elements(s) == Elements(t) && |s| == |t|
  {
    assert |multiset(s)| == |s| && |multiset(t)| == |t|;
    forall r ensures r in Elements(s) <==> r in Elements(t) {
      assert r in s <==> r in multiset(s);
      assert r in t <==> r in multiset(t);
    }
  }

  lemma SamePriority(p: nat, q: nat, s: seq<RInstallation>, t: seq<RInstallation>)
    requires IsMaxPriority(p, s) && IsMaxPriority(q, t) && Elements(s) == Elements(t)
    ensures p == q
  {
  }

  lemma SameLists(a: RInstallation, b: RInstallation)
    requires Built(a) && Built(b)
    requires Elements(OrEmpty(a.knownExecutables)) == Elements(OrEmpty(b.knownExecutables))
    requires Elements(OrEmpty(a.symlinks)) == Elements(OrEmpty(b.symlinks))
    requires Elements(a.discoveredBy) == Elements(b.discoveredBy)
    ensures a.knownExecutables == b.knownExecutables && a.symlinks == b.symlinks && a.discoveredBy == b.discoveredBy
  {
    PathOrder();
    SourceOrder();
    BuiltFacts(a);
    BuiltFacts(b);
    SortDedupOfElements(OrEmpty(a.knownExecutables), OrEmpty(b.knownExecutables), PathLeq);
    SortDedupOfElements(OrEmpty(a.symlinks), OrEmpty(b.symlinks), PathLeq);
    SortDedupOfElements(a.discoveredBy, b.discoveredBy, SourceLeq);
  }

  // ----- The index -----

  type Reports = map<InstallationKey, RInstallation>

  /** The reports of one key, in order. */
  ghost function OfKey(canonicalize: Canonicalize, reports: seq<RInstallation>, key: InstallationKey)
    : seq<RInstallation>
  {
    if reports == [] then []
    else
      var last := reports[|reports| - 1];
      OfKey(canonicalize, reports[..|reports| - 1], key)
      + if KeyOf(canonicalize, last) == Some(key) then [last] else []
  }

  lemma OfKeyAppend(canonicalize: Canonicalize, reports: seq<RInstallation>, r: RInstallation, key: InstallationKey)
    ensures OfKey(canonicalize, reports + [r], key)
         == OfKey(canonicalize, reports, key) + if KeyOf(canonicalize, r) == Some(key) then [r] else []
  {
    assert (reports + [r])[..|reports|] == reports;
  }

  /** The keys sent downstream are those of the index, each once. */
  ghost predicate SentOnce(canonicalize: Canonicalize, index: Reports, downstream: seq<RInstallation>) {
    && |downstream| == |index|
    && (forall i | 0 <= i < |downstream| ::
          KeyOf(canonicalize, downstream[i]).Some? && KeyOf(canonicalize, downstream[i]).value in index)
    && (forall i, j | 0 <= i < j < |downstream| ::
          KeyOf(canonicalize, downstream[i]) != KeyOf(canonicalize, downstream[j]))
    && (forall key | key in index :: SentIn(canonicalize, downstream, key))
  }

  ghost predicate SentIn(canonicalize: Canonicalize, downstream: seq<RInstallation>, key: InstallationKey) {
    exists i :: 0 <= i < |downstream| && KeyOf(canonicalize, downstream[i]) == Some(key)
  }

  /** The key, if it was reported, maps to the merge of its reports, and the stored
      record sits under its own key. */
  ghost predicate EntryFits(canonicalize: Canonicalize, index: Reports, reports: seq<RInstallation>,
                            key: InstallationKey)
  {
    && (key in index <==> OfKey(canonicalize, reports, key) != [])
    && (key in index ==>
          index[key] == MergeAll(OfKey(canonicalize, reports, key)) && KeyOf(canonicalize, index[key]) == Some(key))
  }

  ghost predicate IndexFits(canonicalize: Canonicalize, index: Reports, reports: seq<RInstallation>) {
    forall key :: EntryFits(canonicalize, index, reports, key)
  }

  class CacheReporter {
    const canonicalize: Canonicalize
    var reportedInstallations: Reports
    var reportedManagers: map<Path, EnvManager>
    var installationsSent: seq<RInstallation>
    var managersSent: seq<EnvManager>
    ghost var reports: seq<RInstallation>

    ghost predicate Valid()
      reads this
    {
      ValidInstallations() && ValidManagers()
    }

    ghost predicate ValidInstallations()
      reads `reportedInstallations, `installationsSent, `reports
    {
      && IndexFits(canonicalize, reportedInstallations, reports)
      && SentOnce(canonicalize, reportedInstallations, installationsSent)
    }

    ghost predicate ValidManagers()
      reads `reportedManagers, `managersSent
    {
      ManagersFit(reportedManagers, managersSent)
    }

    constructor (canonicalize: Canonicalize)
      ensures Valid() && this.canonicalize == canonicalize && reports == [] && managersSent == []
    {
      this.canonicalize := canonicalize;
      reportedInstallations, reportedManagers := map[], map[];
      installationsSent, managersSent, reports := [], [], [];
    }

    /** The section under the write lock is the whole operation. */
    method ReportInstallation(installation: RInstallation)
      requires Valid()
      modifies `reportedInstallations, `installationsSent, `reports
      ensures Valid() && reports == old(reports) + [installation]
      ensures reportedInstallations == Indexed(canonicalize, old(reportedInstallations), installation)
      ensures forall k | KeyOf(canonicalize, installation) == Some(k) && k in old(reportedInstallations) ::
                && k in reportedInstallations
                && reportedInstallations[k] == MergeInstallations(old(reportedInstallations)[k], installation)
      ensures installationsSent == old(installationsSent) + Sent(canonicalize, old(reportedInstallations), installation)
      // The first report of each installation is sent, and no other.
      ensures installationsSent == if IsNew(canonicalize, old(reports), installation)
                                   then old(installationsSent) + [installation] else old(installationsSent)
    {
      NewMeansAbsent(canonicalize, reportedInstallations, reports, installation);
      IndexStep(canonicalize, reportedInstallations, reports, installation);
      SentStep(canonicalize, reportedInstallations, installationsSent, installation);
      assert installationsSent + [] == installationsSent;
      hide IsNew, IndexFits, SentOnce, ManagersFit, OfKey, KeyOf, MergeInstallations;
      var k := KeyOf(canonicalize, installation);
      if k.Some? {
        if k.value in reportedInstallations {
          var existing := reportedInstallations[k.value];
          reportedInstallations := reportedInstallations[k.value := MergeInstallations(existing, installation)];
        } else {
          reportedInstallations := reportedInstallations[k.value := installation];
          installationsSent := installationsSent + [installation];
        }
      }
      reports := reports + [installation];
    }

    /** The section under the write lock. */
    method InsertManager(manager: EnvManager)
      requires ValidManagers()
      modifies `reportedManagers, `managersSent
      ensures ValidManagers() && manager.executable in reportedManagers
      ensures if manager.executable in old(reportedManagers)
              then reportedManagers == old(reportedManagers) && managersSent == old(managersSent)
              else && reportedManagers == old(reportedManagers)[manager.executable := manager]
                   && managersSent == old(managersSent) + [manager]
      ensures (reportedManagers, managersSent) == ManagersAfter(old(reportedManagers), old(managersSent), [manager])
    {
      if manager.executable !in reportedManagers {
        reportedManagers := reportedManagers[manager.executable := manager];
        managersSent := managersSent + [manager];
      }
    }

    /** What other threads do to the managers. */
    method InsertManagers(managers: seq<EnvManager>)
      requires ValidManagers()
      modifies `reportedManagers, `managersSent
      ensures ValidManagers()
      ensures (reportedManagers, managersSent) == ManagersAfter(old(reportedManagers), old(managersSent), managers)
    {
      ghost var before := (reportedManagers, managersSent);
      for i := 0 to |managers|
        invariant ValidManagers()
        invariant (reportedManagers, managersSent) == ManagersAfter(before.0, before.1, managers[..i])
      {
        InsertManager(managers[i]);
        ManagersAppend(before.0, before.1, managers[..i], managers[i]);
        assert managers[..i + 1] == managers[..i] + [managers[i]];
      }
      assert managers[..|managers|] == managers;
    }

    /** The read lock is released before the write lock is taken, and `between` are
        the managers other threads report meanwhile, so the test is made again. */
    method ReportManager(manager: EnvManager, between: seq<EnvManager>)
      requires Valid()
      modifies `reportedManagers, `managersSent
      ensures Valid() && manager.executable in reportedManagers
      // The first manager of each executable is stored and sent, whoever reports it.
      ensures (reportedManagers, managersSent)
           == if manager.executable in old(reportedManagers) then (old(reportedManagers), old(managersSent))
              else ManagersAfter(old(reportedManagers), old(managersSent), between + [manager])
    {
      if manager.executable in reportedManagers { return; }
      ghost var before := (reportedManagers, managersSent);
      InsertManagers(between);
      InsertManager(manager);
      ManagersAppend(before.0, before.1, between, manager);
    }
  }

  /** What reporting these managers one after the other stores and sends. */
  function ManagersAfter(reported: map<Path, EnvManager>, sent: seq<EnvManager>, managers: seq<EnvManager>)
    : (map<Path, EnvManager>, seq<EnvManager>)
  {
    if managers == [] then (reported, sent)
    else
      var (r, s) := ManagersAfter(reported, sent, managers[..|managers| - 1]);
      var m := managers[|managers| - 1];
      if m.executable in r then (r, s) else (r[m.executable := m], s + [m])
  }

  lemma ManagersAppend(reported: map<Path, EnvManager>, sent: seq<EnvManager>, managers: seq<EnvManager>, m: EnvManager)
    ensures var (r, s) := ManagersAfter(reported, sent, managers);
            ManagersAfter(reported, sent, managers + [m])
            == if m.executable in r then (r, s) else (r[m.executable := m], s + [m])
  {
    assert (managers + [m])[..|managers|] == managers;
  }

  /** What is stored stays, and otherwise the first manager of an executable does. */
  lemma {:induction false} FirstManagerStays(reported: map<Path, EnvManager>, sent: seq<EnvManager>,
                                             managers: seq<EnvManager>, i: nat)
    requires i < |managers| && forall j | 0 <= j < i :: managers[j].executable != managers[i].executable
    ensures var (r, e) := (ManagersAfter(reported, sent, managers).0, managers[i].executable);
            e in r && r[e] == if e in reported then reported[e] else managers[i]
  {
    var init := managers[..|managers| - 1];
    if i < |init| {
      FirstManagerStays(reported, sent, init, i);
    } else {
      OthersElsewhere(reported, sent, init, managers[i].executable);
    }
  }

  lemma {:induction false} OthersElsewhere(reported: map<Path, EnvManager>, sent: seq<EnvManager>,
                                           managers: seq<EnvManager>, e: Path)
    requires forall j | 0 <= j < |managers| :: managers[j].executable != e
    ensures var r := ManagersAfter(reported, sent, managers).0;
            (e in r <==> e in reported) && (e in reported ==> r[e] == reported[e])
  {
    if managers != [] {
      OthersElsewhere(reported, sent, managers[..|managers| - 1], e);
    }
  }

  /** Managers are sent once per executable, as they are stored. */
  ghost predicate ManagersFit(reported: map<Path, EnvManager>, sent: seq<EnvManager>) {
    && |sent| == |reported|
    && (forall i, j | 0 <= i < j < |sent| :: sent[i].executable != sent[j].executable)
    && (forall i | 0 <= i < |sent| :: sent[i].executable in reported && reported[sent[i].executable] == sent[i])
  }

  /** What one report does to the index. */
  function Indexed(canonicalize: Canonicalize, index: Reports, r: RInstallation): Reports {
    var k := KeyOf(canonicalize, r);
    if k.None? then index
    else index[k.value := if k.value in index then MergeInstallations(index[k.value], r) else r]
  }

  /** What one report sends downstream. */
  function Sent(canonicalize: Canonicalize, index: Reports, r: RInstallation): seq<RInstallation> {
    var k := KeyOf(canonicalize, r);
    if k.Some? && k.value !in index then [r] else []
  }

  lemma IndexStep(canonicalize: Canonicalize, index: Reports, reports: seq<RInstallation>, r: RInstallation)
    requires IndexFits(canonicalize, index, reports)
    ensures IndexFits(canonicalize, Indexed(canonicalize, index, r), reports + [r])
  {
    forall key ensures EntryFits(canonicalize, Indexed(canonicalize, index, r), reports + [r], key) {
      EntryStep(canonicalize, index, reports, r, key);
    }
  }

  lemma EntryStep(canonicalize: Canonicalize, index: Reports, reports: seq<RInstallation>, r: RInstallation,
                  key: InstallationKey)
    requires EntryFits(canonicalize, index, reports, key)
    ensures EntryFits(canonicalize, Indexed(canonicalize, index, r), reports + [r], key)
  {
    if KeyOf(canonicalize, r) != Some(key) {
      EntryOther(canonicalize, index, reports, r, key);
    } else if key in index {
      EntryMerged(canonicalize, index, reports, r, key);
    } else {
      OfKeyAppend(canonicalize, reports, r, key);
      assert OfKey(canonicalize, reports, key) + [r] == [r];
      EntrySet(canonicalize, index, reports + [r], key, r);
    }
  }

  lemma EntryOther(canonicalize: Canonicalize, index: Reports, reports: seq<RInstallation>, r: RInstallation,
                   key: InstallationKey)
    requires EntryFits(canonicalize, index, reports, key) && KeyOf(canonicalize, r) != Some(key)
    ensures EntryFits(canonicalize, Indexed(canonicalize, index, r), reports + [r], key)
  {
    OfKeyAppend(canonicalize, reports, r, key);
    assert OfKey(canonicalize, reports, key) + [] == OfKey(canonicalize, reports, key);
  }

  lemma EntryMerged(canonicalize: Canonicalize, index: Reports, reports: seq<RInstallation>, r: RInstallation,
                    key: InstallationKey)
    requires EntryFits(canonicalize, index, reports, key) && KeyOf(canonicalize, r) == Some(key) && key in index
    ensures EntryFits(canonicalize, index[key := MergeInstallations(index[key], r)], reports + [r], key)
  {
    OfKeyAppend(canonicalize, reports, r, key);
    MergeAllAppend(OfKey(canonicalize, reports, key), r);
    MergeKeepsKey(canonicalize, index[key], r);
    EntrySet(canonicalize, index, reports + [r], key, MergeInstallations(index[key], r));
  }

  lemma EntrySet(canonicalize: Canonicalize, index: Reports, reports: seq<RInstallation>, key: InstallationKey,
                 record: RInstallation)
    requires OfKey(canonicalize, reports, key) != []
    requires record == MergeAll(OfKey(canonicalize, reports, key)) && KeyOf(canonicalize, record) == Some(key)
    ensures EntryFits(canonicalize, index[key := record], reports, key)
  {
  }

  lemma MergeAllAppend(reports: seq<RInstallation>, r: RInstallation)
    requires reports != []
    ensures MergeAll(reports + [r]) == MergeInstallations(MergeAll(reports), r)
  {
    assert (reports + [r])[..|reports|] == reports;
  }

  lemma SentStep(canonicalize: Canonicalize, index: Reports, downstream: seq<RInstallation>, r: RInstallation)
    requires SentOnce(canonicalize, index, downstream)
    ensures SentOnce(canonicalize, Indexed(canonicalize, index, r), downstream + Sent(canonicalize, index, r))
  {
    var k := KeyOf(canonicalize, r);
    if k.None? {
      assert downstream + [] == downstream;
    } else if k.value in index {
      assert downstream + [] == downstream;
      SentAgain(canonicalize, index, downstream, k.value, MergeInstallations(index[k.value], r));
    } else {
      SentFirst(canonicalize, index, downstream, r, k.value);
    }
  }

  /** A merge into an entry sends nothing. */
  lemma SentAgain(canonicalize: Canonicalize, index: Reports, downstream: seq<RInstallation>, key: InstallationKey,
                  r: RInstallation)
    requires SentOnce(canonicalize, index, downstream) && key in index
    ensures SentOnce(canonicalize, index[key := r], downstream)
  {
    assert index[key := r].Keys == index.Keys;
    assert |index[key := r]| == |index|;
  }

  lemma SentFirst(canonicalize: Canonicalize, index: Reports, downstream: seq<RInstallation>, r: RInstallation,
                  key: InstallationKey)
    requires SentOnce(canonicalize, index, downstream) && key !in index && KeyOf(canonicalize, r) == Some(key)
    ensures SentOnce(canonicalize, index[key := r], downstream + [r])
  {
    var after := downstream + [r];
    forall k | k in index[key := r] ensures SentIn(canonicalize, after, k) {
      if k == key {
        assert after[|downstream|] == r;
      } else {
        assert SentIn(canonicalize, downstream, k);
        var i :| 0 <= i < |downstream| && KeyOf(canonicalize, downstream[i]) == Some(k);
        assert after[i] == downstream[i];
      }
    }
  }

  /** No report so far is of the same installation. */
  predicate IsNew(canonicalize: Canonicalize, reports: seq<RInstallation>, r: RInstallation) {
    && Identifiable(r)
    && forall x | x in reports && Identifiable(x) :: !SameInstallation(canonicalize, x, r)
  }

  lemma NewMeansAbsent(canonicalize: Canonicalize, index: Reports, reports: seq<RInstallation>, r: RInstallation)
    requires IndexFits(canonicalize, index, reports)
    ensures Sent(canonicalize, index, r) == if IsNew(canonicalize, reports, r) then [r] else []
  {
    SameKeyExactlyWhen(canonicalize, r, r);
    if Identifiable(r) {
      var key := KeyOf(canonicalize, r).value;
      assert EntryFits(canonicalize, index, reports, key);
      hide SameInstallation, KeyOf, EntryFits, IndexFits;
      forall x | x in reports && Identifiable(x)
        ensures SameInstallation(canonicalize, x, r) <==> KeyOf(canonicalize, x) == Some(key)
      {
        SameKeyExactlyWhen(canonicalize, x, r);
      }
      OfKeyOccurs(canonicalize, reports, key);
    }
  }

  lemma OfKeyOccurs(canonicalize: Canonicalize, reports: seq<RInstallation>, key: InstallationKey)
    ensures OfKey(canonicalize, reports, key) != [] <==>
            exists x :: x in reports && Identifiable(x) && KeyOf(canonicalize, x) == Some(key)
  {
    var some := OfKey(canonicalize, reports, key);
    if some != [] {
      var x := some[0];
      OfKeyCounts(canonicalize, reports, key, x);
      assert x in multiset(some) && x in multiset(reports);
      SameKeyExactlyWhen(canonicalize, x, x);
    } else {
      forall x | x in reports ensures KeyOf(canonicalize, x) != Some(key) {
        OfKeyCounts(canonicalize, reports, key, x);
        assert x in multiset(reports) && x !in multiset(some);
      }
    }
  }

  // ----- What the index holds in the end -----

  lemma {:induction false} OfKeyCounts(canonicalize: Canonicalize, reports: seq<RInstallation>, key: InstallationKey,
                                       r: RInstallation)
    ensures multiset(OfKey(canonicalize, reports, key))[r]
         == if KeyOf(canonicalize, r) == Some(key) then multiset(reports)[r] else 0
  {
    if reports != [] {
      var (init, last) := (reports[..|reports| - 1], reports[|reports| - 1]);
      OfKeyCounts(canonicalize, init, key, r);
      assert reports == init + [last];
      assert multiset(reports) == multiset(init) + multiset([last]);
    }
  }

  lemma OfKeyBuilt(canonicalize: Canonicalize, reports: seq<RInstallation>, key: InstallationKey)
    requires AllBuilt(reports)
    ensures AllBuilt(OfKey(canonicalize, reports, key))
  {
    forall r | r in OfKey(canonicalize, reports, key) ensures Built(r) {
      OfKeyCounts(canonicalize, reports, key, r);
      assert r in multiset(OfKey(canonicalize, reports, key)) && r in multiset(reports);
    }
  }

  /** Every record of the index has what the reports of its key had. */
  lemma IndexGathers(canonicalize: Canonicalize, index: Reports, reports: seq<RInstallation>, key: InstallationKey)
    requires IndexFits(canonicalize, index, reports) && AllBuilt(reports) && key in index
    ensures Gathers(index[key], OfKey(canonicalize, reports, key))
  {
    assert EntryFits(canonicalize, index, reports, key);
    OfKeyBuilt(canonicalize, reports, key);
    MergeAllGathers(OfKey(canonicalize, reports, key));
  }

  /** Two interleavings of the same reports leave the same keys, with the same lists
      and the same priority under each. */
  lemma InterleavingDoesNotMatter(canonicalize: Canonicalize, index: Reports, reports: seq<RInstallation>,
                                  other: Reports, otherReports: seq<RInstallation>, key: InstallationKey)
    requires IndexFits(canonicalize, index, reports) && IndexFits(canonicalize, other, otherReports)
    requires AllBuilt(reports) && multiset(reports) == multiset(otherReports)
    ensures key in index <==> key in other
    ensures key in index ==>
              && index[key].knownExecutables == other[key].knownExecutables
              && index[key].symlinks == other[key].symlinks
              && index[key].discoveredBy == other[key].discoveredBy
              && PriorityOf(index[key].locatorMetadata) == PriorityOf(other[key].locatorMetadata)
  {
    var s, t := OfKey(canonicalize, reports, key), OfKey(canonicalize, otherReports, key);
    forall r ensures multiset(s)[r] == multiset(t)[r] {
      OfKeyCounts(canonicalize, reports, key, r);
      OfKeyCounts(canonicalize, otherReports, key, r);
    }
    assert multiset(s) == multiset(t);
    SameElements(s, t);
    assert EntryFits(canonicalize, index, reports, key) && EntryFits(canonicalize, other, otherReports, key);
    if s != [] {
      OfKeyBuilt(canonicalize, reports, key);
      forall r | r in t ensures Built(r) { assert r in multiset(t) && r in multiset(s); }
      OrderDoesNotMatter(s, t);
    }
  }
}
