/** An R installation as reported, and the builder that completes it. */
module Installation {
  import opened Basics
  import opened Sorting
  import opened Text

  /** The components of an absolute path. */
  type Path = seq<string>

  datatype Kind =
    | Chocolatey | Conda | EnvironmentModule | Guix | Homebrew | LinuxGlobal | MacFramework | MacPorts | Nix
    | Pixi | Rig | Scoop | Spack | WindowsHq | WindowsRegistry | GlobalPaths

  datatype DiscoverySource = Locator | GlobalPathsSource | ExplicitSearch | RVersions

  datatype Architecture = Arm64 | X64 | X86

  datatype LocatorMetadata =
    | CondaMetadata(environmentPath: Path)
    | PixiMetadata(environmentPath: Path, manifestPath: Option<Path>, environmentName: Option<string>)
    | ModuleMetadata(moduleName: string, startup: string)

  datatype RVersionsOverlay = RVersionsOverlay(
    labelText: Option<string>, script: Option<string>, repo: Option<string>, library: Option<string>,
    module_: Option<string>, moduleStartupCommand: Option<string>)

  datatype EnvManager = EnvManager(executable: Path, version: Option<string>, tool: string)

  datatype RInstallation = RInstallation(
    displayName: Option<string>,
    name: Option<string>,
    executable: Option<Path>,
    kind: Option<Kind>,
    version: Option<string>,
    home: Option<Path>,
    manager: Option<EnvManager>,
    arch: Option<Architecture>,
    knownExecutables: Option<seq<Path>>,
    symlinks: Option<seq<Path>>,
    discoveredBy: seq<DiscoverySource>,
    locatorMetadata: Option<LocatorMetadata>,
    rversionsOverlay: Option<RVersionsOverlay>,
    scriptPath: Option<Path>,
    startupCommand: Option<string>,
    environmentVariables: Option<map<string, string>>,
    orthogonal: Option<bool>,
    error: Option<string>)

  // ----- Orders -----

  function SourceRank(s: DiscoverySource): nat {
    match s case Locator => 0 case GlobalPathsSource => 1 case ExplicitSearch => 2 case RVersions => 3
  }

  predicate SourceLeq(a: DiscoverySource, b: DiscoverySource) {
    SourceRank(a) <= SourceRank(b)
  }

  function NormalizedPaths(paths: seq<Path>): seq<Path> {
    SortDedup(paths, PathLeq)
  }

  function NormalizedSources(sources: seq<DiscoverySource>): seq<DiscoverySource> {
    SortDedup(sources, SourceLeq)
  }

  function OrEmpty<T>(s: Option<seq<T>>): seq<T> {
    if s.Some? then s.value else []
  }

  function NonEmpty<T>(s: seq<T>): Option<seq<T>> {
    if |s| == 0 then None else Some(s)
  }

  // ----- Inferred fields -----

  function LowerAscii(s: string): string {
    seq(|s|, i requires 0 <= i < |s| =>
      if 'A' <= s[i] <= 'Z' then (s[i] as int - 'A' as int + 'a' as int) as char else s[i])
  }

  predicate Contains(s: string, part: string) {
    exists i | 0 <= i <= |s| :: part <= s[i..]
  }

  function PathString(p: Path): string {
    if p == [] then [] else "/" + p[0] + PathString(p[1..])
  }

  /** The executable decides when it is a known launcher; one without a file name
      ends the inference. */
  function InferScriptPath(executable: Option<Path>, home: Option<Path>): Option<Path> {
    if executable.Some? && executable.value == [] then None
    else
      var fromExecutable :=
        if executable.None? then None
        else
          var exe := executable.value;
          var name := LowerAscii(exe[|exe| - 1]);
          if name == "rscript" || name == "rscript.exe" then Some(exe)
          else if name == "r" then Some(exe[..|exe| - 1] + ["Rscript"])
          else if name == "r.exe" then Some(exe[..|exe| - 1] + ["Rscript.exe"])
          else None;
      if fromExecutable.Some? then fromExecutable
      else if home.Some? then Some(home.value + ["bin", "Rscript"])
      else None
  }

  function InferOrthogonal(home: Option<Path>): Option<bool> {
    if home.Some? && Contains(PathString(home.value), "R.framework") then
      var s := PathString(home.value);
      Some(Contains(s, "R.framework/Versions/") && !Contains(s, "R.framework/Versions/Current/"))
    else None
  }

  function GeneratedDisplayName(kind: Option<Kind>, version: Option<string>, name: Option<string>): Option<string> {
    if kind != Some(Conda) && kind != Some(Pixi) then None
    else if version.None? then None
    else
      var source := if kind == Some(Conda) then "Conda" else "Pixi";
      Some(if name.Some? && name.value != "" then "R " + version.value + " (" + source + ": " + name.value + ")"
           else "R " + version.value + " (" + source + ")")
  }

  function OverlayLabel(overlay: Option<RVersionsOverlay>): Option<string> {
    if overlay.Some? then overlay.value.labelText else None
  }

  // ----- The builder -----

  function DefaultSources(kind: Option<Kind>, sources: seq<DiscoverySource>): seq<DiscoverySource> {
    if sources == [] && kind.Some? && kind != Some(GlobalPaths) then [Locator] else sources
  }

  function Build(b: RInstallation): RInstallation {
    var known := OrEmpty(b.knownExecutables) + if b.executable.Some? then [b.executable.value] else [];
    b.(displayName := OverlayLabel(b.rversionsOverlay)
                      .Or(GeneratedDisplayName(b.kind, b.version, b.name).Or(b.displayName)),
       knownExecutables := NonEmpty(NormalizedPaths(known)),
       symlinks := NonEmpty(NormalizedPaths(OrEmpty(b.symlinks))),
       discoveredBy := NormalizedSources(DefaultSources(b.kind, b.discoveredBy)),
       scriptPath := b.scriptPath.Or(InferScriptPath(b.executable, b.home)),
       orthogonal := b.orthogonal.Or(InferOrthogonal(b.home)),
       environmentVariables :=
         if b.environmentVariables.Some? && |b.environmentVariables.value| == 0 then None else b.environmentVariables)
  }

  /** Records that come out of the builder. */
  predicate Built(r: RInstallation) {
    Build(r) == r
  }

  lemma SourceOrder()
    ensures TotalOrder(SourceLeq)
  {
  }

  lemma NormalizedPathsFixed(paths: seq<Path>)
    ensures NormalizedPaths(NormalizedPaths(paths)) == NormalizedPaths(paths)
  {
    PathOrder();
    SortDedupIncreasing(paths, PathLeq);
    SortDedupFixed(NormalizedPaths(paths), PathLeq);
  }

  /** Normalising paths to which some of their own are added changes nothing. */
  lemma NormalizedAgain(paths: seq<Path>, more: seq<Path>)
    requires Elements(more) <= Elements(paths)
    ensures NormalizedPaths(NormalizedPaths(paths) + more) == NormalizedPaths(paths)
  {
    PathOrder();
    SortDedupIncreasing(paths, PathLeq);
    var s := NormalizedPaths(paths) + more;
    assert Elements(s) == Elements(NormalizedPaths(paths)) + Elements(more);
    SortDedupOfElements(s, paths, PathLeq);
  }

  lemma NormalizedSourcesFixed(sources: seq<DiscoverySource>)
    ensures NormalizedSources(NormalizedSources(sources)) == NormalizedSources(sources)
    ensures NormalizedSources(sources) == [] <==> sources == []
  {
    SourceOrder();
    SortDedupIncreasing(sources, SourceLeq);
    SortDedupFixed(NormalizedSources(sources), SourceLeq);
    if sources != [] { assert sources[0] in Elements(sources); }
  }

  /** Building twice is building once. */
  lemma BuildIdempotent(b: RInstallation)
    ensures Built(Build(b))
  {
    var r := Build(b);
    var exe := if b.executable.Some? then [b.executable.value] else [];
    var known := OrEmpty(b.knownExecutables) + exe;
    NormalizedAgain(known, exe);
    NormalizedPathsFixed(OrEmpty(b.symlinks));
    NormalizedSourcesFixed(DefaultSources(b.kind, b.discoveredBy));
    assert OrEmpty(r.knownExecutables) == NormalizedPaths(known);
    assert OrEmpty(r.symlinks) == NormalizedPaths(OrEmpty(b.symlinks));
  }

  // ----- What the builder gives -----

  lemma LowerSpells(name: string, lower: string)
    requires forall i | 0 <= i < |lower| :: !('A' <= lower[i] <= 'Z')
    ensures LowerAscii(name) == lower <==> Spells(name, lower)
  {
    var l := LowerAscii(name);
    if Spells(name, lower) {
      assert forall i | 0 <= i < |name| :: SameLetter(name[i], lower[i]) ==> l[i] == lower[i];
    } else if l == lower {
      forall i | 0 <= i < |name| ensures SameLetter(name[i], lower[i]) {
        assert l[i] == lower[i];
      }
    }
  }

  /** The part stands somewhere in the text. */
  ghost predicate Occurs(s: string, part: string) {
    exists before, after :: s == before + part + after
  }

  lemma ContainsOccurs(s: string, part: string)
    ensures Contains(s, part) <==> Occurs(s, part)
  {
    if i :| 0 <= i <= |s| && part <= s[i..] {
      assert s == s[..i] + part + s[i + |part|..];
    }
    if before, after :| s == before + part + after {
      assert s[|before|..] == part + after;
    }
  }

  /** The fields that the builder leaves alone. */
  predicate SameGivenFields(b: RInstallation, r: RInstallation) {
    && r.name == b.name && r.executable == b.executable && r.kind == b.kind && r.version == b.version
    && r.home == b.home && r.manager == b.manager && r.arch == b.arch && r.error == b.error
    && r.locatorMetadata == b.locatorMetadata && r.rversionsOverlay == b.rversionsOverlay
    && r.startupCommand == b.startupCommand
  }

  /** The label of the overlay, the name made up for a manager's environment, or the
      given one. */
  predicate DisplayNameFits(b: RInstallation, r: RInstallation) {
    if b.rversionsOverlay.Some? && b.rversionsOverlay.value.labelText.Some? then
      r.displayName == b.rversionsOverlay.value.labelText
    else if b.version.Some? && (b.kind == Some(Conda) || b.kind == Some(Pixi)) then
      var (v, source) := (b.version.value, if b.kind == Some(Conda) then "Conda" else "Pixi");
      r.displayName == Some(if b.name.None? || b.name == Some("") then "R " + v + " (" + source + ")"
                            else "R " + v + " (" + source + ": " + b.name.value + ")")
    else r.displayName == b.displayName
  }

  /** Without a given script, the one beside the executable if that is R or Rscript,
      and else the one below the home. */
  predicate ScriptFits(b: RInstallation, r: RInstallation) {
    if b.scriptPath.Some? then r.scriptPath == b.scriptPath
    else if b.executable == Some([]) then r.scriptPath == None
    else
      var exe := b.executable.Or(Some([""])).value;
      var (directory, name) := (exe[..|exe| - 1], exe[|exe| - 1]);
      if Spells(name, "rscript") || Spells(name, "rscript.exe") then r.scriptPath == b.executable
      else if Spells(name, "r") then r.scriptPath == Some(directory + ["Rscript"])
      else if Spells(name, "r.exe") then r.scriptPath == Some(directory + ["Rscript.exe"])
      else if b.home.Some? then r.scriptPath == Some(b.home.value + ["bin", "Rscript"])
      else r.scriptPath == None
  }

  ghost predicate OrthogonalFits(b: RInstallation, r: RInstallation) {
    if b.orthogonal.Some? then r.orthogonal == b.orthogonal
    else if b.home.Some? && Occurs(PathString(b.home.value), "R.framework") then
      r.orthogonal == Some(Occurs(PathString(b.home.value), "R.framework/Versions/")
                           && !Occurs(PathString(b.home.value), "R.framework/Versions/Current/"))
    else r.orthogonal == None
  }

  /** A list of paths, if there are any, each once in the order of their components. */
  ghost predicate Lists(list: Option<seq<Path>>, paths: set<Path>) {
    if paths == {} then list == None
    else list.Some? && Increasing(list.value, PathLeq) && Elements(list.value) == paths
  }

  /** The order of the sources: locators, global paths, explicit searches, `r-versions`. */
  predicate SourceBefore(a: DiscoverySource, b: DiscoverySource) {
    match a
    case Locator => b != Locator
    case GlobalPathsSource => b == ExplicitSearch || b == RVersions
    case ExplicitSearch => b == RVersions
    case RVersions => false
  }

  ghost predicate SourcesFit(b: RInstallation, r: RInstallation) {
    && (forall i, j | 0 <= i < j < |r.discoveredBy| :: SourceBefore(r.discoveredBy[i], r.discoveredBy[j]))
    && Elements(r.discoveredBy) ==
       if b.discoveredBy == [] && b.kind.Some? && b.kind != Some(GlobalPaths) then {Locator}
       else Elements(b.discoveredBy)
  }

  ghost predicate ListsFit(b: RInstallation, r: RInstallation) {
    && Lists(r.knownExecutables,
             Elements(OrEmpty(b.knownExecutables)) + if b.executable.Some? then {b.executable.value} else {})
    && Lists(r.symlinks, Elements(OrEmpty(b.symlinks)))
  }

  lemma NormalizedLists(paths: seq<Path>)
    ensures Lists(NonEmpty(NormalizedPaths(paths)), Elements(paths))
  {
    PathOrder();
    SortDedupIncreasing(paths, PathLeq);
    var list := NormalizedPaths(paths);
    if list != [] { assert list[0] in Elements(list); }
    if paths != [] { assert paths[0] in Elements(paths); }
  }

  lemma BuildLists(b: RInstallation)
    ensures ListsFit(b, Build(b))
  {
    var exe := if b.executable.Some? then [b.executable.value] else [];
    NormalizedLists(OrEmpty(b.knownExecutables) + exe);
    assert Elements(OrEmpty(b.knownExecutables) + exe) == Elements(OrEmpty(b.knownExecutables)) + Elements(exe);
    NormalizedLists(OrEmpty(b.symlinks));
  }

  lemma BuildSources(b: RInstallation)
    ensures SourcesFit(b, Build(b))
  {
    var (given, r) := (DefaultSources(b.kind, b.discoveredBy), Build(b));
    SourceOrder();
    SortDedupIncreasing(given, SourceLeq);
    assert Elements([Locator]) == {Locator};
    forall i, j | 0 <= i < j < |r.discoveredBy| ensures SourceBefore(r.discoveredBy[i], r.discoveredBy[j]) {
      InTurn(r.discoveredBy[i], r.discoveredBy[j]);
    }
  }

  lemma InTurn(a: DiscoverySource, b: DiscoverySource)
    requires SourceLeq(a, b) && a != b
    ensures SourceBefore(a, b)
  {
  }

  lemma BuildScript(b: RInstallation)
    ensures ScriptFits(b, Build(b))
  {
    if b.executable.Some? && b.executable.value != [] {
      var name := b.executable.value[|b.executable.value| - 1];
      LowerSpells(name, "rscript");
      LowerSpells(name, "rscript.exe");
      LowerSpells(name, "r");
      LowerSpells(name, "r.exe");
    }
    assert !Spells("", "r") && !Spells("", "r.exe") && !Spells("", "rscript") && !Spells("", "rscript.exe");
    hide LowerAscii, Spells;
  }

  lemma BuildOrthogonal(b: RInstallation)
    ensures OrthogonalFits(b, Build(b))
  {
    if b.home.Some? {
      var s := PathString(b.home.value);
      ContainsOccurs(s, "R.framework");
      ContainsOccurs(s, "R.framework/Versions/");
      ContainsOccurs(s, "R.framework/Versions/Current/");
    }
  }

  lemma BuildDisplayName(b: RInstallation)
    ensures DisplayNameFits(b, Build(b))
  {
  }

  /** What the builder makes of its fields, field by field. */
  lemma BuildIs(b: RInstallation)
    ensures SameGivenFields(b, Build(b)) && DisplayNameFits(b, Build(b)) && ScriptFits(b, Build(b))
    ensures OrthogonalFits(b, Build(b)) && ListsFit(b, Build(b)) && SourcesFit(b, Build(b))
    ensures Build(b).environmentVariables ==
            if b.environmentVariables == Some(map[]) then None else b.environmentVariables
  {
    BuildDisplayName(b);
    BuildScript(b);
    BuildOrthogonal(b);
    BuildLists(b);
    BuildSources(b);
  }
}
