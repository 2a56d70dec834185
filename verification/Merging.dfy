/** Merging two reports of one installation. */
module Merging {
  import opened Basics
  import opened Sorting
  import opened Installation

  // ----- Which record leads -----

  function MetadataPriority(m: LocatorMetadata): nat {
    match m case PixiMetadata(_, _, _) => 3 case CondaMetadata(_) => 2 case ModuleMetadata(_, _) => 1
  }

  function PriorityOf(m: Option<LocatorMetadata>): nat {
    if m.Some? then MetadataPriority(m.value) else 0
  }

  function KindSpecificity(kind: Option<Kind>): nat {
    match kind
    case Some(GlobalPaths) => 1
    case Some(LinuxGlobal) => 2
    case Some(EnvironmentModule) => 3
    case Some(_) => 4
    case None => 0
  }

  function One<T>(field: Option<T>): nat {
    if field.Some? then 1 else 0
  }

  function Completeness(r: RInstallation): nat {
    One(r.displayName) + One(r.name) + One(r.executable) + One(r.kind) + One(r.version) + One(r.home)
    + One(r.manager) + One(r.arch) + One(r.knownExecutables) + One(r.symlinks) + One(r.locatorMetadata)
    + One(r.rversionsOverlay) + One(r.scriptPath) + One(r.startupCommand) + One(r.environmentVariables)
    + One(r.orthogonal) + One(r.error)
  }

  /** The new record leads only when it is strictly better; `existing` wins ties. */
  predicate NewLeads(existing: RInstallation, new_: RInstallation) {
    var (p, q) := (PriorityOf(existing.locatorMetadata), PriorityOf(new_.locatorMetadata));
    var (k, l) := (KindSpecificity(existing.kind), KindSpecificity(new_.kind));
    || q > p
    || (q == p && l > k)
    || (q == p && l == k && Completeness(new_) > Completeness(existing))
  }

  // ----- Merging the parts -----

  function SelectLocatorMetadata(existing: Option<LocatorMetadata>, new_: Option<LocatorMetadata>)
    : Option<LocatorMetadata>
  {
    if existing.Some? && new_.Some? then
      if MetadataPriority(new_.value) > MetadataPriority(existing.value) then new_ else existing
    else existing.Or(new_)
  }

  function MergeOverlay(existing: Option<RVersionsOverlay>, new_: Option<RVersionsOverlay>): Option<RVersionsOverlay> {
    if existing.Some? && new_.Some? then
      var (e, n) := (existing.value, new_.value);
      Some(RVersionsOverlay(e.labelText.Or(n.labelText), e.script.Or(n.script), e.repo.Or(n.repo),
                            e.library.Or(n.library), e.module_.Or(n.module_),
                            e.moduleStartupCommand.Or(n.moduleStartupCommand)))
    else existing.Or(new_)
  }

  function MergeEnvironment(primary: Option<map<string, string>>, secondary: Option<map<string, string>>)
    : Option<map<string, string>>
  {
    if primary.Some? && secondary.Some? then Some(secondary.value + primary.value)
    else primary.Or(secondary)
  }

  function UnionPaths(a: Option<seq<Path>>, b: Option<seq<Path>>): Option<seq<Path>> {
    NonEmpty(NormalizedPaths(OrEmpty(a) + OrEmpty(b)))
  }

  /** What the merge hands to the builder. */
  function MergedFields(existing: RInstallation, new_: RInstallation): RInstallation {
    var (primary, secondary) := if NewLeads(existing, new_) then (new_, existing) else (existing, new_);
    var overlay := MergeOverlay(existing.rversionsOverlay, new_.rversionsOverlay);
    RInstallation(
      OverlayLabel(overlay).Or(primary.displayName.Or(secondary.displayName)),
      primary.name.Or(secondary.name),
      primary.executable.Or(secondary.executable),
      primary.kind.Or(secondary.kind),
      primary.version.Or(secondary.version),
      primary.home.Or(secondary.home),
      primary.manager.Or(secondary.manager),
      primary.arch.Or(secondary.arch),
      UnionPaths(existing.knownExecutables, new_.knownExecutables),
      UnionPaths(existing.symlinks, new_.symlinks),
      NormalizedSources(existing.discoveredBy + new_.discoveredBy),
      SelectLocatorMetadata(existing.locatorMetadata, new_.locatorMetadata),
      overlay,
      primary.scriptPath.Or(secondary.scriptPath),
      primary.startupCommand.Or(secondary.startupCommand),
      MergeEnvironment(primary.environmentVariables, secondary.environmentVariables),
      primary.orthogonal.Or(secondary.orthogonal),
      primary.error.Or(secondary.error))
  }

  function MergeInstallations(existing: RInstallation, new_: RInstallation): RInstallation {
    Build(MergedFields(existing, new_))
  }

  // ----- What a merge leaves -----

  /** Facts about a record that came out of the builder. */
  lemma BuiltFacts(r: RInstallation)
    requires Built(r)
    ensures r.executable.Some? ==> r.executable.value in Elements(OrEmpty(r.knownExecutables))
    ensures OrEmpty(r.knownExecutables) == NormalizedPaths(OrEmpty(r.knownExecutables))
    ensures OrEmpty(r.symlinks) == NormalizedPaths(OrEmpty(r.symlinks))
    ensures r.discoveredBy == NormalizedSources(r.discoveredBy)
    ensures r.knownExecutables == NonEmpty(OrEmpty(r.knownExecutables))
    ensures r.symlinks == NonEmpty(OrEmpty(r.symlinks))
    ensures r.discoveredBy == [] ==> r.kind.None? || r.kind == Some(GlobalPaths)
    ensures r.environmentVariables.Some? ==> r.environmentVariables.value != map[]
  {
    var exe := if r.executable.Some? then [r.executable.value] else [];
    var known := OrEmpty(r.knownExecutables) + exe;
    PathOrder();
    SortDedupIncreasing(known, PathLeq);
    assert OrEmpty(r.knownExecutables) == NormalizedPaths(known);
    assert exe != [] ==> exe[0] in Elements(known);
    NormalizedPathsFixed(known);
    NormalizedPathsFixed(OrEmpty(r.symlinks));
    NormalizedSourcesFixed(DefaultSources(r.kind, r.discoveredBy));
  }

  lemma MergedPaths(a: Option<seq<Path>>, b: Option<seq<Path>>)
    ensures OrEmpty(UnionPaths(a, b)) == NormalizedPaths(OrEmpty(a) + OrEmpty(b))
    ensures Elements(OrEmpty(UnionPaths(a, b))) == Elements(OrEmpty(a)) + Elements(OrEmpty(b))
  {
    PathOrder();
    SortDedupIncreasing(OrEmpty(a) + OrEmpty(b), PathLeq);
  }

  /** The three lists of a merge are the sorted duplicate-free unions, and its
      metadata has the higher priority. */
  lemma MergeIsUnion(existing: RInstallation, new_: RInstallation)
    requires Built(existing) && Built(new_)
    ensures var r := MergeInstallations(existing, new_);
            && Built(r)
            && Elements(OrEmpty(r.knownExecutables))
               == Elements(OrEmpty(existing.knownExecutables)) + Elements(OrEmpty(new_.knownExecutables))
            && Elements(OrEmpty(r.symlinks)) == Elements(OrEmpty(existing.symlinks)) + Elements(OrEmpty(new_.symlinks))
            && Elements(r.discoveredBy) == Elements(existing.discoveredBy) + Elements(new_.discoveredBy)
            && PriorityOf(r.locatorMetadata) ==
               (if PriorityOf(new_.locatorMetadata) > PriorityOf(existing.locatorMetadata)
                then PriorityOf(new_.locatorMetadata) else PriorityOf(existing.locatorMetadata))
  {
    var r := MergeInstallations(existing, new_);
    BuildIdempotent(MergedFields(existing, new_));
    BuiltFacts(existing);
    BuiltFacts(new_);
    MergedExecutables(existing, new_);
    MergedSources(existing, new_);
    MergedPaths(existing.symlinks, new_.symlinks);
    NormalizedPathsFixed(OrEmpty(existing.symlinks) + OrEmpty(new_.symlinks));
  }

  /** The executable the builder adds is one of the known ones already. */
  lemma MergedExecutables(existing: RInstallation, new_: RInstallation)
    requires Built(existing) && Built(new_)
    ensures Elements(OrEmpty(MergeInstallations(existing, new_).knownExecutables))
         == Elements(OrEmpty(existing.knownExecutables)) + Elements(OrEmpty(new_.knownExecutables))
  {
    var r := MergeInstallations(existing, new_);
    BuiltFacts(existing);
    BuiltFacts(new_);
    MergedPaths(existing.knownExecutables, new_.knownExecutables);
    var exe := if r.executable.Some? then [r.executable.value] else [];
    var union := OrEmpty(existing.knownExecutables) + OrEmpty(new_.knownExecutables);
    assert Elements(union) == Elements(OrEmpty(existing.knownExecutables)) + Elements(OrEmpty(new_.knownExecutables));
    assert Elements(exe) <= Elements(union);
    NormalizedAgain(union, exe);
    assert OrEmpty(r.knownExecutables) == NormalizedPaths(NormalizedPaths(union) + exe);
  }

  lemma MergedSources(existing: RInstallation, new_: RInstallation)
    requires Built(existing) && Built(new_)
    ensures Elements(MergeInstallations(existing, new_).discoveredBy)
         == Elements(existing.discoveredBy) + Elements(new_.discoveredBy)
  {
    var r := MergeInstallations(existing, new_);
    BuiltFacts(existing);
    BuiltFacts(new_);
    var union := existing.discoveredBy + new_.discoveredBy;
    SourceOrder();
    SortDedupIncreasing(union, SourceLeq);
    NormalizedSourcesFixed(union);
    assert Elements(union) == Elements(existing.discoveredBy) + Elements(new_.discoveredBy);
    assert DefaultSources(r.kind, NormalizedSources(union)) == NormalizedSources(union);
  }

  /** Merging a built record with itself returns it. */
  lemma MergeWithItself(r: RInstallation)
    requires Built(r)
    ensures MergeInstallations(r, r) == r
  {
    BuiltFacts(r);
    PathOrder();
    SourceOrder();
    SortDedupOfElements(OrEmpty(r.knownExecutables) + OrEmpty(r.knownExecutables),
                        OrEmpty(r.knownExecutables), PathLeq);
    SortDedupOfElements(OrEmpty(r.symlinks) + OrEmpty(r.symlinks), OrEmpty(r.symlinks), PathLeq);
    SortDedupOfElements(r.discoveredBy + r.discoveredBy, r.discoveredBy, SourceLeq);
    assert UnionPaths(r.knownExecutables, r.knownExecutables) == r.knownExecutables;
    assert UnionPaths(r.symlinks, r.symlinks) == r.symlinks;
    assert NormalizedSources(r.discoveredBy + r.discoveredBy) == r.discoveredBy;
    if r.environmentVariables.Some? {
      assert r.environmentVariables.value + r.environmentVariables.value == r.environmentVariables.value;
    }
  }

  // ----- No field is lost -----

  /** Every optional field present in `a` is present in `b`. */
  predicate FieldsIn(a: RInstallation, b: RInstallation) {
    && ScalarsIn(a, b)
    && (a.knownExecutables.Some? ==> b.knownExecutables.Some?)
    && (a.symlinks.Some? ==> b.symlinks.Some?)
    && (a.environmentVariables.Some? ==> b.environmentVariables.Some?)
  }

  predicate ScalarsIn(a: RInstallation, b: RInstallation) {
    && (a.displayName.Some? ==> b.displayName.Some?)
    && (a.name.Some? ==> b.name.Some?)
    && (a.executable.Some? ==> b.executable.Some?)
    && (a.kind.Some? ==> b.kind.Some?)
    && (a.version.Some? ==> b.version.Some?)
    && (a.home.Some? ==> b.home.Some?)
    && (a.manager.Some? ==> b.manager.Some?)
    && (a.arch.Some? ==> b.arch.Some?)
    && (a.locatorMetadata.Some? ==> b.locatorMetadata.Some?)
    && (a.rversionsOverlay.Some? ==> b.rversionsOverlay.Some?)
    && (a.scriptPath.Some? ==> b.scriptPath.Some?)
    && (a.startupCommand.Some? ==> b.startupCommand.Some?)
    && (a.orthogonal.Some? ==> b.orthogonal.Some?)
    && (a.error.Some? ==> b.error.Some?)
  }

  lemma ElementsEmpty<T>(s: seq<T>)
    ensures s == [] <==> Elements(s) == {}
  {
    if s != [] { assert s[0] in Elements(s); }
  }

  lemma NoFieldLost(existing: RInstallation, new_: RInstallation)
    requires Built(existing) && Built(new_)
    ensures FieldsIn(existing, MergeInstallations(existing, new_))
    ensures FieldsIn(new_, MergeInstallations(existing, new_))
  {
    ScalarsKept(existing, new_);
    ListsKept(existing, new_);
    MergedEnvironmentKept(existing, new_);
  }

  lemma ScalarsKept(existing: RInstallation, new_: RInstallation)
    ensures ScalarsIn(existing, MergeInstallations(existing, new_))
    ensures ScalarsIn(new_, MergeInstallations(existing, new_))
  {
    var m := MergedFields(existing, new_);
    assert ScalarsIn(existing, m) && ScalarsIn(new_, m);
    assert ScalarsIn(m, Build(m));
  }

  lemma MergedEnvironmentKept(existing: RInstallation, new_: RInstallation)
    requires Built(existing) && Built(new_)
    ensures existing.environmentVariables.Some? || new_.environmentVariables.Some? ==>
              MergeInstallations(existing, new_).environmentVariables.Some?
  {
    BuiltFacts(existing);
    BuiltFacts(new_);
    EnvironmentKept(existing.environmentVariables, new_.environmentVariables);
    EnvironmentKept(new_.environmentVariables, existing.environmentVariables);
  }

  lemma ListsKept(existing: RInstallation, new_: RInstallation)
    requires Built(existing) && Built(new_)
    ensures var r := MergeInstallations(existing, new_);
            && (r.knownExecutables.Some? <==> existing.knownExecutables.Some? || new_.knownExecutables.Some?)
            && (r.symlinks.Some? <==> existing.symlinks.Some? || new_.symlinks.Some?)
  {
    var r := MergeInstallations(existing, new_);
    MergeIsUnion(existing, new_);
    BuiltFacts(existing);
    BuiltFacts(new_);
    BuiltFacts(r);
    forall x | x in {existing, new_, r}
      ensures x.knownExecutables.Some? <==> Elements(OrEmpty(x.knownExecutables)) != {}
      ensures x.symlinks.Some? <==> Elements(OrEmpty(x.symlinks)) != {}
    {
      ElementsEmpty(OrEmpty(x.knownExecutables));
      ElementsEmpty(OrEmpty(x.symlinks));
    }
  }

  lemma EnvironmentKept(primary: Option<map<string, string>>, secondary: Option<map<string, string>>)
    ensures primary.Some? && primary.value != map[] ==>
              MergeEnvironment(primary, secondary).Some? && MergeEnvironment(primary, secondary).value != map[]
    ensures secondary.Some? && secondary.value != map[] && (primary.Some? ==> primary.value != map[]) ==>
              MergeEnvironment(primary, secondary).Some? && MergeEnvironment(primary, secondary).value != map[]
  {
    if primary.Some? && primary.value != map[] {
      var k :| k in primary.value;
      assert k in MergeEnvironment(primary, secondary).value;
    } else if primary.Some? && secondary.Some? && secondary.value != map[] {
      var k :| k in secondary.value;
      assert k in MergeEnvironment(primary, secondary).value;
    }
  }

  // ----- The leading record -----

  /** Metadata of Pixi outranks that of Conda, which outranks that of a module, which
      outranks none. */
  predicate MetadataAbove(a: Option<LocatorMetadata>, b: Option<LocatorMetadata>) {
    match a
    case None => false
    case Some(PixiMetadata(_, _, _)) => b.None? || !b.value.PixiMetadata?
    case Some(CondaMetadata(_)) => b.None? || b.value.ModuleMetadata?
    case Some(ModuleMetadata(_, _)) => b.None?
  }

  /** Every kind outranks none, and the three general ones are outranked by all others. */
  predicate KindAbove(a: Option<Kind>, b: Option<Kind>) {
    match a
    case None => false
    case Some(GlobalPaths) => b == None
    case Some(LinuxGlobal) => b == None || b == Some(GlobalPaths)
    case Some(EnvironmentModule) => b == None || b == Some(GlobalPaths) || b == Some(LinuxGlobal)
    case Some(_) => b == None || b == Some(GlobalPaths) || b == Some(LinuxGlobal) || b == Some(EnvironmentModule)
  }

  /** Which optional fields the record has, in the order of their declaration. */
  function Presence(r: RInstallation): (p: seq<bool>)
    ensures |p| == 17
  {
    [r.displayName.Some?, r.name.Some?, r.executable.Some?, r.kind.Some?, r.version.Some?, r.home.Some?,
     r.manager.Some?, r.arch.Some?, r.knownExecutables.Some?, r.symlinks.Some?, r.locatorMetadata.Some?,
     r.rversionsOverlay.Some?, r.scriptPath.Some?, r.startupCommand.Some?, r.environmentVariables.Some?,
     r.orthogonal.Some?, r.error.Some?]
  }

  ghost function PresentFields(r: RInstallation): set<int> {
    TrueBelow(Presence(r), 17)
  }

  ghost function TrueBelow(p: seq<bool>, n: nat): set<int>
    requires n <= |p|
  {
    set i | 0 <= i < n && p[i]
  }

  /** One field more: it counts if it is there. */
  lemma OneMore<T>(p: seq<bool>, n: nat, field: Option<T>)
    requires n < |p| && p[n] == field.Some?
    ensures |TrueBelow(p, n + 1)| == |TrueBelow(p, n)| + One(field)
  {
    assert TrueBelow(p, n + 1) == TrueBelow(p, n) + if p[n] then {n} else {};
  }

  lemma NoneBelow(p: seq<bool>)
    ensures |TrueBelow(p, 0)| == 0
  {
    assert TrueBelow(p, 0) == {};
  }

  lemma FirstFields(r: RInstallation)
    ensures |TrueBelow(Presence(r), 8)| ==
            One(r.displayName) + One(r.name) + One(r.executable) + One(r.kind) + One(r.version) + One(r.home)
            + One(r.manager) + One(r.arch)
  {
    var p := Presence(r);
    NoneBelow(p);
    hide TrueBelow, One;
    OneMore(p, 0, r.displayName);
    OneMore(p, 1, r.name);
    OneMore(p, 2, r.executable);
    OneMore(p, 3, r.kind);
    OneMore(p, 4, r.version);
    OneMore(p, 5, r.home);
    OneMore(p, 6, r.manager);
    OneMore(p, 7, r.arch);
  }

  /** Completeness counts the fields that are present. */
  lemma CompletenessCounts(r: RInstallation)
    ensures Completeness(r) == |PresentFields(r)|
  {
    var p := Presence(r);
    FirstFields(r);
    hide TrueBelow, One;
    OneMore(p, 8, r.knownExecutables);
    OneMore(p, 9, r.symlinks);
    OneMore(p, 10, r.locatorMetadata);
    OneMore(p, 11, r.rversionsOverlay);
    OneMore(p, 12, r.scriptPath);
    OneMore(p, 13, r.startupCommand);
    OneMore(p, 14, r.environmentVariables);
    OneMore(p, 15, r.orthogonal);
    OneMore(p, 16, r.error);
  }

  /** The new record leads if its metadata outranks that of the existing one; or the
      metadata are of one rank and its kind does; or these are of one rank too and it
      has more fields. */
  ghost predicate Leads(existing: RInstallation, new_: RInstallation) {
    if MetadataAbove(new_.locatorMetadata, existing.locatorMetadata) then true
    else if MetadataAbove(existing.locatorMetadata, new_.locatorMetadata) then false
    else if KindAbove(new_.kind, existing.kind) then true
    else if KindAbove(existing.kind, new_.kind) then false
    else |PresentFields(new_)| > |PresentFields(existing)|
  }

  lemma LeaderExactlyWhen(existing: RInstallation, new_: RInstallation)
    ensures NewLeads(existing, new_) <==> Leads(existing, new_)
  {
    CompletenessCounts(existing);
    CompletenessCounts(new_);
    hide Completeness, PresentFields;
  }

  /** The value of the leader, and the other's only where the leader has none. */
  predicate Prevails<T(==)>(result: Option<T>, leader: Option<T>, other: Option<T>) {
    (leader.Some? ==> result == leader) && (leader.None? ==> result == other)
  }

  /** The same, except that the builder may find a value when both have none. */
  predicate PrevailsIfAny<T(==)>(result: Option<T>, leader: Option<T>, other: Option<T>) {
    leader.Some? || other.Some? ==> Prevails(result, leader, other)
  }

  predicate FieldsPrevail(r: RInstallation, leader: RInstallation, other: RInstallation) {
    && Prevails(r.name, leader.name, other.name)
    && Prevails(r.executable, leader.executable, other.executable)
    && Prevails(r.kind, leader.kind, other.kind)
    && Prevails(r.version, leader.version, other.version)
    && Prevails(r.home, leader.home, other.home)
    && Prevails(r.manager, leader.manager, other.manager)
    && Prevails(r.arch, leader.arch, other.arch)
    && Prevails(r.startupCommand, leader.startupCommand, other.startupCommand)
    && Prevails(r.error, leader.error, other.error)
    && PrevailsIfAny(r.scriptPath, leader.scriptPath, other.scriptPath)
    && PrevailsIfAny(r.orthogonal, leader.orthogonal, other.orthogonal)
  }

  /** The record that leads gives its fields, the earlier one on a tie. The fields of
      the `r-versions` overlay come from the earlier one in any case, the metadata from
      the one whose metadata is of higher rank, and an environment variable set twice
      keeps the leader's value. */
  lemma LeaderPrevails(existing: RInstallation, new_: RInstallation)
    requires Built(existing) && Built(new_)
    ensures var r := MergeInstallations(existing, new_);
            var (leader, other) := if Leads(existing, new_) then (new_, existing) else (existing, new_);
            && FieldsPrevail(r, leader, other)
            && OverlayPrevails(r.rversionsOverlay, existing.rversionsOverlay, new_.rversionsOverlay)
            && r.locatorMetadata == (if MetadataAbove(new_.locatorMetadata, existing.locatorMetadata)
                                     then new_.locatorMetadata else existing.locatorMetadata)
            && EnvironmentPrevails(r.environmentVariables, leader.environmentVariables, other.environmentVariables)
  {
    LeaderExactlyWhen(existing, new_);
    ScalarsPrevail(existing, new_);
    MergePasses(existing, new_);
    OverlayPrevailing(existing.rversionsOverlay, new_.rversionsOverlay);
    MetadataPrevailing(existing.locatorMetadata, new_.locatorMetadata);
    hide *;
    if NewLeads(existing, new_) {
      EnvironmentPrevailing(new_.environmentVariables, existing.environmentVariables);
    } else {
      EnvironmentPrevailing(existing.environmentVariables, new_.environmentVariables);
    }
  }

  /** The parts that the builder does not touch. */
  lemma MergePasses(existing: RInstallation, new_: RInstallation)
    requires Built(existing) && Built(new_)
    ensures var r := MergeInstallations(existing, new_);
            && r.rversionsOverlay == MergeOverlay(existing.rversionsOverlay, new_.rversionsOverlay)
            && r.locatorMetadata == SelectLocatorMetadata(existing.locatorMetadata, new_.locatorMetadata)
            && r.environmentVariables ==
               if NewLeads(existing, new_)
               then MergeEnvironment(new_.environmentVariables, existing.environmentVariables)
               else MergeEnvironment(existing.environmentVariables, new_.environmentVariables)
  {
    MergedEnvironmentKept(existing, new_);
    hide NewLeads, MergeOverlay, SelectLocatorMetadata, Built;
  }

  lemma ScalarsPrevail(existing: RInstallation, new_: RInstallation)
    ensures var (leader, other) := if NewLeads(existing, new_) then (new_, existing) else (existing, new_);
            FieldsPrevail(MergeInstallations(existing, new_), leader, other)
  {
    hide NewLeads, MergeOverlay, SelectLocatorMetadata, MergeEnvironment, UnionPaths;
    hide InferScriptPath, InferOrthogonal, GeneratedDisplayName, OverlayLabel, NormalizedPaths, NormalizedSources;
  }

  /** The display name of a merge is made as the builder does, out of the leader's or
      else the other's. */
  lemma LeaderNames(existing: RInstallation, new_: RInstallation)
    ensures var r := MergeInstallations(existing, new_);
            var (leader, other) := if Leads(existing, new_) then (new_, existing) else (existing, new_);
            DisplayNameFits(r.(displayName := leader.displayName.Or(other.displayName)), r)
  {
    LeaderExactlyWhen(existing, new_);
    BuildDisplayName(MergedFields(existing, new_));
    hide NewLeads, Leads, MergeOverlay, SelectLocatorMetadata, MergeEnvironment, UnionPaths;
    hide InferScriptPath, InferOrthogonal, GeneratedDisplayName, NormalizedPaths, NormalizedSources;
  }

  lemma OverlayPrevailing(first: Option<RVersionsOverlay>, second: Option<RVersionsOverlay>)
    ensures OverlayPrevails(MergeOverlay(first, second), first, second)
  {
  }

  lemma MetadataPrevailing(existing: Option<LocatorMetadata>, new_: Option<LocatorMetadata>)
    ensures SelectLocatorMetadata(existing, new_) == if MetadataAbove(new_, existing) then new_ else existing
  {
  }

  lemma EnvironmentPrevailing(leader: Option<map<string, string>>, other: Option<map<string, string>>)
    ensures EnvironmentPrevails(MergeEnvironment(leader, other), leader, other)
  {
  }

  /** The variables of both, with the leader's values. */
  ghost predicate EnvironmentPrevails(r: Option<map<string, string>>, leader: Option<map<string, string>>,
                                other: Option<map<string, string>>)
  {
    && (r.Some? <==> leader.Some? || other.Some?)
    && (r.Some? ==> forall k ::
          && (k in r.value <==> (leader.Some? && k in leader.value) || (other.Some? && k in other.value))
          && (k in r.value ==>
                if leader.Some? && k in leader.value then r.value[k] == leader.value[k]
                else other.Some? && k in other.value && r.value[k] == other.value[k]))
  }

  predicate OverlayPrevails(r: Option<RVersionsOverlay>, first: Option<RVersionsOverlay>,
                            second: Option<RVersionsOverlay>)
  {
    if first.None? then r == second
    else r.Some? && if second.None? then r == first else LabelsPrevail(r.value, first.value, second.value)
  }

  predicate LabelsPrevail(r: RVersionsOverlay, first: RVersionsOverlay, second: RVersionsOverlay) {
    && Prevails(r.labelText, first.labelText, second.labelText)
    && Prevails(r.script, first.script, second.script)
    && Prevails(r.repo, first.repo, second.repo)
    && Prevails(r.library, first.library, second.library)
    && Prevails(r.module_, first.module_, second.module_)
    && Prevails(r.moduleStartupCommand, first.moduleStartupCommand, second.moduleStartupCommand)
  }
}
