/** Which reports are of one installation. */
module InstallationKeys {
  import opened Basics
  import opened Installation
  import opened Text

  /** `environment` stands for the sorted list of its pairs. */
  datatype InstallationKey = InstallationKey(
    home: Option<Path>,
    launchDirectory: Option<Path>,
    launcherName: Option<string>,
    architecture: Option<Architecture>,
    startup: Option<string>,
    environment: map<string, string>)

  /** `fs::canonicalize`, fixed; `None` where it fails. */
  type Canonicalize = Path -> Option<Path>

  function Canonical(canonicalize: Canonicalize, p: Path): Path {
    var c := canonicalize(p);
    if c.Some? then c.value else p
  }

  function LauncherName(p: Path): Option<string> {
    if p == [] then None
    else
      var name := p[|p| - 1];
      var lower := LowerAscii(name);
      Some(if lower == "r" || lower == "r.exe" || lower == "rscript" || lower == "rscript.exe" then "R" else name)
  }

  function Parent(p: Path): Option<Path> {
    if p == [] then None else Some(p[..|p| - 1])
  }

  function KeyOf(canonicalize: Canonicalize, r: RInstallation): Option<InstallationKey> {
    if r.home.None? && r.executable.None? then None
    else
      var launcher := if r.executable.Some? then Some(Canonical(canonicalize, r.executable.value)) else None;
      Some(InstallationKey(
        if r.home.Some? then Some(Canonical(canonicalize, r.home.value)) else None,
        if launcher.Some? then Parent(launcher.value) else None,
        if launcher.Some? then LauncherName(launcher.value) else None,
        r.arch,
        r.startupCommand,
        if r.environmentVariables.Some? then r.environmentVariables.value else map[]))
  }

  // ----- What an equal key means -----

  predicate Identifiable(r: RInstallation) {
    r.home.Some? || r.executable.Some?
  }

  /** The place a path stands for: its canonical form, or itself if it has none. */
  function Place(canonicalize: Canonicalize, p: Option<Path>): Option<Path> {
    if p.None? then None else canonicalize(p.value).Or(p)
  }

  /** The canonical launcher, unless there is none or it has no file name. */
  function Launcher(canonicalize: Canonicalize, r: RInstallation): Option<Path> {
    if Place(canonicalize, r.executable) == Some([]) then None else Place(canonicalize, r.executable)
  }

  predicate IsRLauncher(name: string) {
    Spells(name, "r") || Spells(name, "r.exe") || Spells(name, "rscript") || Spells(name, "rscript.exe")
  }

  /** R and Rscript of one directory are one launcher. */
  predicate SameLauncher(a: Path, b: Path) {
    && a != [] && b != [] && a[..|a| - 1] == b[..|b| - 1]
    && var (x, y) := (a[|a| - 1], b[|b| - 1]);
       x == y || (IsRLauncher(x) && IsRLauncher(y))
  }

  predicate SameEnvironment(a: RInstallation, b: RInstallation) {
    a.environmentVariables.Or(Some(map[])) == b.environmentVariables.Or(Some(map[]))
  }

  predicate SameInstallation(canonicalize: Canonicalize, a: RInstallation, b: RInstallation) {
    && Place(canonicalize, a.home) == Place(canonicalize, b.home)
    && Launcher(canonicalize, a).Some? == Launcher(canonicalize, b).Some?
    && (Launcher(canonicalize, a).Some? && Launcher(canonicalize, b).Some? ==>
          SameLauncher(Launcher(canonicalize, a).value, Launcher(canonicalize, b).value))
    && a.arch == b.arch && a.startupCommand == b.startupCommand && SameEnvironment(a, b)
  }

  lemma LauncherNameIs(p: Path)
    requires p != []
    ensures LauncherName(p) == Some(if IsRLauncher(p[|p| - 1]) then "R" else p[|p| - 1])
    ensures IsRLauncher("R")
  {
    var name := p[|p| - 1];
    LowerSpells(name, "r");
    LowerSpells(name, "r.exe");
    LowerSpells(name, "rscript");
    LowerSpells(name, "rscript.exe");
    assert Spells("R", "r");
  }

  lemma LauncherSame(x: Path, y: Path)
    requires x != [] && y != []
    ensures Parent(x) == Parent(y) && LauncherName(x) == LauncherName(y) <==> SameLauncher(x, y)
  {
    LauncherNameIs(x);
    LauncherNameIs(y);
  }

  /** A record without home and executable has no key. Of the others, two have one key
      if and only if they are of one installation. */
  lemma SameKeyExactlyWhen(canonicalize: Canonicalize, a: RInstallation, b: RInstallation)
    ensures KeyOf(canonicalize, a).Some? <==> Identifiable(a)
    ensures Identifiable(a) && Identifiable(b) ==>
              (KeyOf(canonicalize, a) == KeyOf(canonicalize, b) <==> SameInstallation(canonicalize, a, b))
  {
    hide LowerAscii, SameLauncher;
    var (x, y) := (Launcher(canonicalize, a), Launcher(canonicalize, b));
    if x.Some? && y.Some? {
      LauncherSame(x.value, y.value);
    }
  }
}
