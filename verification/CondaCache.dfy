/** The fingerprint-validated cache of Conda metadata: a double collect against a
    writer that changes the files at any time between two reads. */
module CondaCache {
  import opened Basics
  import opened Sorting

  type Path = string
  type Name = string

  /** Modification time and length. */
  datatype Stamp = Stamp(modified: int, length: nat)
  datatype File = File(stamp: Stamp, content: string)

  /** A `conda-meta` directory; `files` is keyed by the path below it. */
  datatype Directory = Absent | Present(stamp: Stamp, files: map<Name, File>)
  {
    function Files(): map<Name, File> { if Present? then files else map[] }
  }

  datatype Info = Info(version: string, arch: Option<string>)

  /** The library code the parser calls: the expressions that find the last r-base
      line of a history and the version in a file name, and the JSON decoder with its
      fallback version. */
  datatype Parser = Parser(
    designate: string -> Option<(string, string)>,
    versionIn: Name -> Option<string>,
    decode: (string, string) -> Option<Info>)

  const HISTORY: Name := "history"

  /** A directory entry the fingerprint covers: `/` cannot stand in one. */
  predicate IsRBase(name: Name) {
    && "r-base-" <= name && |name| >= 12 && name[|name| - 5..] == ".json"
    && '/' !in name
  }

  function PackageName(version: string, hash: string): Name {
    "r-base-" + version + "-" + hash + ".json"
  }

  function RBaseNames(files: map<Name, File>): set<Name> {
    set name | name in files && IsRBase(name)
  }

  /** The entries of the directory itself; what lies below a subdirectory does
      not change its stamp. */
  function Listing(files: map<Name, File>): set<Name> {
    set name | name in files && '/' !in name
  }

  // ----- The parser on a directory that stands still -----

  function ReadPackage(parser: Parser, d: Directory, name: Name, version: string): Option<Info> {
    if name in d.Files() then parser.decode(d.Files()[name].content, version) else None
  }

  type Candidate = (string, Name)

  function Candidates(parser: Parser, names: set<Name>): set<Candidate> {
    set name | name in names && parser.versionIn(name).Some? :: (parser.versionIn(name).value, name)
  }

  /** The order of the candidates: by version, as text, and then by name. */
  predicate CandidateLeq(a: Candidate, b: Candidate) {
    if a.0 == b.0 then LexLeq(a.1, b.1) else LexLeq(a.0, b.0)
  }

  lemma CandidateOrder(a: Candidate, b: Candidate, c: Candidate)
    ensures CandidateLeq(a, b) || CandidateLeq(b, a)
    ensures CandidateLeq(a, b) && CandidateLeq(b, a) ==> a == b
    ensures CandidateLeq(a, b) && CandidateLeq(b, c) ==> CandidateLeq(a, c)
  {
    LexTotal(a.0, b.0);
    LexTotal(a.1, b.1);
    if CandidateLeq(a, b) && CandidateLeq(b, c) {
      if a.0 == b.0 == c.0 {
        LexTransitive(a.1, b.1, c.1);
      } else if a.0 != b.0 && b.0 != c.0 {
        LexTransitive(a.0, b.0, c.0);
      }
    }
  }

  lemma {:induction false} LeastExists(s: set<Candidate>) returns (c: Candidate)
    requires s != {}
    ensures c in s && forall d | d in s :: CandidateLeq(c, d)
  {
    var x :| x in s;
    if s == {x} {
      CandidateOrder(x, x, x);
      c := x;
    } else {
      var rest := s - {x};
      assert s == rest + {x};
      var least := LeastExists(rest);
      c := if CandidateLeq(least, x) then least else x;
      forall d | d in s ensures CandidateLeq(c, d) {
        CandidateOrder(x, least, d);
        CandidateOrder(x, x, x);
        assert d == x || d in rest;
      }
    }
  }

  /** The head of the sorted list of candidates. */
  function First(s: set<Candidate>): (r: Option<Candidate>)
    ensures r.None? <==> s == {}
    ensures r.Some? ==> r.value in s && forall d | d in s :: CandidateLeq(r.value, d)
  {
    if s == {} then None
    else
      assert exists c :: c in s && forall d | d in s :: CandidateLeq(c, d) by {
        var least := LeastExists(s);
      }
      assert forall c, d | c in s && d in s && CandidateLeq(c, d) && CandidateLeq(d, c) :: c == d by {
        forall c, d | c in s && d in s && CandidateLeq(c, d) && CandidateLeq(d, c) ensures c == d {
          CandidateOrder(c, d, c);
        }
      }
      var c :| c in s && forall d | d in s :: CandidateLeq(c, d);
      Some(c)
  }

  function OfVersion(candidates: set<Candidate>, version: string): set<Candidate> {
    set c | c in candidates && c.0 == version
  }

  /** The candidate that is read when a version is preferred, if one is given. */
  function Chosen(parser: Parser, names: set<Name>, preferred: Option<string>): Option<(string, Name)> {
    var candidates := Candidates(parser, names);
    var exact := if preferred.Some? then First(OfVersion(candidates, preferred.value)) else None;
    if exact.Some? then exact else First(candidates)
  }

  function InfoFromPackages(parser: Parser, d: Directory, preferred: Option<string>): Option<Info> {
    if d.Absent? then None
    else
      var chosen := Chosen(parser, RBaseNames(d.files), preferred);
      if chosen.None? then None
      else ReadPackage(parser, d, chosen.value.1, chosen.value.0).Or(Some(Info(chosen.value.0, None)))
  }

  function Designated(parser: Parser, d: Directory): Option<(string, string)> {
    if HISTORY in d.Files() then parser.designate(d.Files()[HISTORY].content) else None
  }

  function Parse(parser: Parser, d: Directory): Option<Info> {
    var designated := Designated(parser, d);
    if designated.None? then InfoFromPackages(parser, d, None)
    else
      var (version, hash) := designated.value;
      ReadPackage(parser, d, PackageName(version, hash), version)
      .Or(InfoFromPackages(parser, d, Some(version)).Or(Some(Info(version, None))))
  }

  // ----- What the parse is -----

  /** A file directly in the directory that the enumeration matches with this version. */
  predicate Matches(parser: Parser, d: Directory, version: string, name: Name) {
    && name in d.Files() && '/' !in name
    && "r-base-" <= name && |name| >= 12 && name[|name| - 5..] == ".json"
    && parser.versionIn(name) == Some(version)
  }

  /** The first match in the order of versions and names. */
  ghost predicate FirstMatch(parser: Parser, d: Directory, version: string, name: Name) {
    && Matches(parser, d, version, name)
    && forall v, n | Matches(parser, d, v, n) :: if v == version then LexLeq(name, n) else LexLeq(version, v)
  }

  /** The first match with the given version. */
  ghost predicate FirstMatchOf(parser: Parser, d: Directory, version: string, name: Name) {
    && Matches(parser, d, version, name)
    && forall n | Matches(parser, d, version, n) :: LexLeq(name, n)
  }

  predicate Decoded(parser: Parser, d: Directory, name: Name, version: string) {
    name in d.Files() && parser.decode(d.Files()[name].content, version).Some?
  }

  /** The result is what the file decodes to, and the bare version if it does not. */
  predicate ComesFrom(parser: Parser, d: Directory, name: Name, version: string, r: Option<Info>) {
    if Decoded(parser, d, name, version) then r == parser.decode(d.Files()[name].content, version)
    else r == Some(Info(version, None))
  }

  /** Without a match the result is `otherwise`, and else it comes from the first one. */
  ghost predicate FromFirstMatch(parser: Parser, d: Directory, otherwise: Option<Info>, r: Option<Info>) {
    && (forall v, n | FirstMatch(parser, d, v, n) :: ComesFrom(parser, d, n, v, r))
    && ((forall v, n :: !Matches(parser, d, v, n)) ==> r == otherwise)
  }

  /** What the environment gives: the package file that the history names, if it
      decodes; else the first match of the version the history names; else the first
      match of all; else that version alone, or nothing without one. */
  ghost predicate IsParse(parser: Parser, d: Directory, r: Option<Info>) {
    if "history" in d.Files() && parser.designate(d.Files()["history"].content).Some? then
      var (version, hash) := parser.designate(d.Files()["history"].content).value;
      var named := "r-base-" + version + "-" + hash + ".json";
      if Decoded(parser, d, named, version) then r == parser.decode(d.Files()[named].content, version)
      else
        && (forall n | FirstMatchOf(parser, d, version, n) :: ComesFrom(parser, d, n, version, r))
        && ((forall n :: !Matches(parser, d, version, n)) ==>
              FromFirstMatch(parser, d, Some(Info(version, None)), r))
    else FromFirstMatch(parser, d, None, r)
  }

  lemma CandidatesMatch(parser: Parser, d: Directory, version: string, name: Name)
    requires d.Present?
    ensures (version, name) in Candidates(parser, RBaseNames(d.files)) <==> Matches(parser, d, version, name)
  {
  }

  lemma AllCandidatesMatch(parser: Parser, d: Directory)
    requires d.Present?
    ensures forall v, n :: (v, n) in Candidates(parser, RBaseNames(d.files)) <==> Matches(parser, d, v, n)
  {
    forall v, n ensures (v, n) in Candidates(parser, RBaseNames(d.files)) <==> Matches(parser, d, v, n) {
      CandidatesMatch(parser, d, v, n);
    }
  }

  lemma FirstMatchUnique(parser: Parser, d: Directory, a: Candidate, b: Candidate)
    requires FirstMatch(parser, d, a.0, a.1) && FirstMatch(parser, d, b.0, b.1)
    ensures a == b
  {
    CandidateOrder(a, b, a);
  }

  /** The file is the one that the enumeration reads, and no other is. */
  lemma FirstCandidate(parser: Parser, d: Directory, c: Candidate)
    requires d.Present? && First(Candidates(parser, RBaseNames(d.files))) == Some(c)
    ensures FirstMatch(parser, d, c.0, c.1)
    ensures forall v, n | FirstMatch(parser, d, v, n) :: (v, n) == c
  {
    AllCandidatesMatch(parser, d);
    forall v, n | FirstMatch(parser, d, v, n) ensures (v, n) == c {
      FirstMatchUnique(parser, d, c, (v, n));
    }
  }

  lemma FirstPreferred(parser: Parser, d: Directory, version: string, c: Candidate)
    requires d.Present?
    requires First(OfVersion(Candidates(parser, RBaseNames(d.files)), version)) == Some(c)
    ensures c.0 == version && FirstMatchOf(parser, d, version, c.1)
    ensures forall n | FirstMatchOf(parser, d, version, n) :: n == c.1
  {
    AllCandidatesMatch(parser, d);
    forall n | Matches(parser, d, version, n) ensures LexLeq(c.1, n) {
      assert (version, n) in OfVersion(Candidates(parser, RBaseNames(d.files)), version);
    }
    forall n | FirstMatchOf(parser, d, version, n) ensures n == c.1 {
      LexTotal(n, c.1);
    }
  }

  lemma NoneMatch(parser: Parser, d: Directory)
    requires d.Present? ==> Candidates(parser, RBaseNames(d.files)) == {}
    ensures forall v, n :: !Matches(parser, d, v, n)
  {
    if d.Present? { AllCandidatesMatch(parser, d); }
  }

  /** The enumeration when no version is preferred, or none has the preferred one. */
  lemma PackagesFirst(parser: Parser, d: Directory, otherwise: Option<Info>, r: Option<Info>)
    ensures FromFirstMatch(parser, d, otherwise, r) <==> r == InfoFromPackages(parser, d, None).Or(otherwise)
  {
    if d.Absent? || Candidates(parser, RBaseNames(d.files)) == {} {
      NoneMatch(parser, d);
    } else {
      FirstCandidate(parser, d, First(Candidates(parser, RBaseNames(d.files))).value);
    }
  }

  lemma PackagesPreferred(parser: Parser, d: Directory, version: string, r: Option<Info>)
    ensures (&& (forall n | FirstMatchOf(parser, d, version, n) :: ComesFrom(parser, d, n, version, r))
             && ((forall n :: !Matches(parser, d, version, n)) ==>
                   FromFirstMatch(parser, d, Some(Info(version, None)), r)))
            <==> r == InfoFromPackages(parser, d, Some(version)).Or(Some(Info(version, None)))
  {
    PackagesFirst(parser, d, Some(Info(version, None)), r);
    if d.Absent? {
      NoneMatch(parser, d);
    } else {
      AllCandidatesMatch(parser, d);
      var candidates := OfVersion(Candidates(parser, RBaseNames(d.files)), version);
      if candidates != {} {
        FirstPreferred(parser, d, version, First(candidates).value);
      } else {
        forall n ensures !Matches(parser, d, version, n) {
          assert (version, n) !in candidates;
        }
      }
    }
  }

  /** The parser computes exactly that, on every directory. */
  lemma ParseIs(parser: Parser, d: Directory, r: Option<Info>)
    ensures r == Parse(parser, d) <==> IsParse(parser, d, r)
  {
    var designated := Designated(parser, d);
    if designated.None? {
      PackagesFirst(parser, d, None, r);
    } else {
      PackagesPreferred(parser, d, designated.value.0, r);
    }
  }

  // ----- Fingerprints -----

  datatype Fingerprint = Fingerprint(directory: Stamp, history: Option<Stamp>, packages: map<Name, Stamp>)

  predicate Holds(f: Fingerprint, d: Directory) {
    && d.Present? && d.stamp == f.directory
    && f.history == (if HISTORY in d.files then Some(d.files[HISTORY].stamp) else None)
    && f.packages.Keys == RBaseNames(d.files)
    && forall name | name in f.packages :: d.files[name].stamp == f.packages[name]
  }

  /** The two directories agree on everything a fingerprint covers. */
  predicate CoveredSame(d: Directory, e: Directory) {
    && d.Present? && e.Present?
    && RBaseNames(d.files) == RBaseNames(e.files)
    && (HISTORY in d.files <==> HISTORY in e.files)
    && (HISTORY in d.files ==> d.files[HISTORY].content == e.files[HISTORY].content)
    && forall name | name in RBaseNames(d.files) :: d.files[name].content == e.files[name].content
  }

  /** The package the history text designates, if any, is one a fingerprint covers. */
  predicate DesignatesCovered(parser: Parser, h: string) {
    parser.designate(h).Some? ==>
      '/' !in PackageName(parser.designate(h).value.0, parser.designate(h).value.1)
  }

  /** The same of the history that stands in the directory. */
  predicate HistoryCovered(parser: Parser, d: Directory) {
    HISTORY in d.Files() ==> DesignatesCovered(parser, d.Files()[HISTORY].content)
  }

  lemma PackageNameIsRBase(v: string, hash: string)
    requires '/' !in PackageName(v, hash)
    ensures IsRBase(PackageName(v, hash))
  {
    var name := PackageName(v, hash);
    assert name == "r-base-" + (v + "-" + hash + ".json");
    assert name == ("r-base-" + v + "-" + hash) + ".json";
  }

  lemma ChosenIsListed(parser: Parser, names: set<Name>, preferred: Option<string>)
    ensures Chosen(parser, names, preferred).Some? ==> Chosen(parser, names, preferred).value.1 in names
  {
  }

  lemma PackagesCovered(parser: Parser, d: Directory, e: Directory, preferred: Option<string>)
    requires CoveredSame(d, e)
    ensures InfoFromPackages(parser, d, preferred) == InfoFromPackages(parser, e, preferred)
  {
    ChosenIsListed(parser, RBaseNames(d.files), preferred);
  }

  /** The parse depends on covered contents alone when the history designates a
      covered package. */
  lemma ParseCovered(parser: Parser, d: Directory, e: Directory)
    requires CoveredSame(d, e)
    requires HistoryCovered(parser, d)
    ensures Parse(parser, d) == Parse(parser, e)
  {
    assert Designated(parser, d) == Designated(parser, e);
    if Designated(parser, d).Some? {
      var (v, hash) := Designated(parser, d).value;
      PackageNameIsRBase(v, hash);
      var name := PackageName(v, hash);
      assert name in d.files <==> name in RBaseNames(d.files);
      assert name in e.files <==> name in RBaseNames(e.files);
      PackagesCovered(parser, d, e, Some(v));
    } else {
      PackagesCovered(parser, d, e, None);
    }
  }

  /** What several reads give, the history and the designated package each at its
      own instant, while the covered contents stay as in `d`. */
  lemma ReadsGiveParse(parser: Parser, d: Directory, first: Directory, second: Directory)
    requires CoveredSame(d, first) && CoveredSame(d, second) && HistoryCovered(parser, d)
    requires Designated(parser, first).Some?
    ensures var (version, hash) := Designated(parser, first).value;
            Parse(parser, d) == ReadPackage(parser, second, PackageName(version, hash), version)
                                .Or(InfoFromPackages(parser, d, Some(version)).Or(Some(Info(version, None))))
  {
    assert Designated(parser, d) == Designated(parser, first);
    var (version, hash) := Designated(parser, d).value;
    PackageNameIsRBase(version, hash);
    var name := PackageName(version, hash);
    assert name in d.files <==> name in RBaseNames(d.files);
    assert name in second.files <==> name in RBaseNames(second.files);
  }

  // ----- Time -----

  /** The contents of every prefix at every instant. */
  type Disk = (nat, Path) -> Directory

  ghost predicate DirectoryKept(disk: Disk, p: Path, i: nat, j: nat, k: nat) {
    disk(i, p).Present? && disk(k, p).Present? && disk(i, p).stamp == disk(k, p).stamp ==>
      && disk(j, p).Present? && disk(j, p).stamp == disk(i, p).stamp
      && Listing(disk(j, p).files) == Listing(disk(i, p).files)
  }

  ghost predicate FileKept(disk: Disk, p: Path, n: Name, i: nat, j: nat, k: nat) {
    n in disk(i, p).Files() && n in disk(k, p).Files() && disk(i, p).Files()[n].stamp == disk(k, p).Files()[n].stamp ==>
      n in disk(j, p).Files() && disk(j, p).Files()[n] == disk(i, p).Files()[n]
  }

  /** No stamp ever returns: between two instants at which a file carries the same
      stamp it was not touched, and between two at which the directory does, no
      name was added or removed. */
  ghost predicate NoStampReturns(disk: Disk) {
    && (forall p, i: nat, j: nat, k: nat | i <= j <= k :: DirectoryKept(disk, p, i, j, k))
    && (forall p, n, i: nat, j: nat, k: nat | i <= j <= k :: FileKept(disk, p, n, i, j, k))
  }

  ghost predicate SeenHistory(disk: Disk, p: Path, f: Fingerprint, t: nat) {
    match f.history
    case Some(stamp) => HISTORY in disk(t, p).Files() && disk(t, p).Files()[HISTORY].stamp == stamp
    case None => HISTORY !in disk(t, p).Files()
  }

  ghost predicate SeenPackage(disk: Disk, p: Path, f: Fingerprint, name: Name, t: nat) {
    if name in f.packages then name in disk(t, p).Files() && disk(t, p).Files()[name].stamp == f.packages[name]
    else name !in disk(t, p).Files()
  }

  ghost predicate SeenPackageDuring(disk: Disk, p: Path, f: Fingerprint, name: Name, from: nat, to: nat) {
    exists t: nat :: from <= t <= to && SeenPackage(disk, p, f, name, t)
  }

  /** One collect: the history at `h`, the listing at `l`, every listed package
      after it, and last of all the directory at `d`. */
  ghost predicate Collected(disk: Disk, p: Path, f: Fingerprint, h: nat, l: nat, d: nat) {
    && h <= l <= d
    && SeenHistory(disk, p, f, h)
    && f.packages.Keys <= RBaseNames(disk(l, p).Files())
    && (forall name | name in RBaseNames(disk(l, p).Files()) :: SeenPackageDuring(disk, p, f, name, l, d))
    && disk(d, p).Present? && disk(d, p).stamp == f.directory
  }

  ghost predicate CollectedDuring(disk: Disk, p: Path, f: Fingerprint, from: nat, to: nat) {
    exists h: nat, l: nat, d: nat :: from <= h && d <= to && Collected(disk, p, f, h, l, d)
  }

  /** Two collects with the same outcome: at every instant between them the
      fingerprint held. */
  lemma DoubleCollect(disk: Disk, p: Path, f: Fingerprint, from: nat, mid: nat, next: nat, to: nat, t: nat)
    requires NoStampReturns(disk)
    requires CollectedDuring(disk, p, f, from, mid) && CollectedDuring(disk, p, f, next, to)
    requires mid <= t <= next
    ensures Holds(f, disk(t, p))
  {
    var h: nat, l: nat, d: nat :| from <= h && d <= mid && Collected(disk, p, f, h, l, d);
    var h': nat, l': nat, d': nat :| next <= h' && d' <= to && Collected(disk, p, f, h', l', d');
    hide NoStampReturns, Collected, CollectedDuring, Holds;
    DoubleCollectAt(disk, p, f, h, l, d, h', l', d', t);
  }

  lemma DoubleCollectAt(disk: Disk, p: Path, f: Fingerprint, h: nat, l: nat, d: nat, h': nat, l': nat, d': nat, t: nat)
    requires NoStampReturns(disk)
    requires Collected(disk, p, f, h, l, d) && Collected(disk, p, f, h', l', d') && d <= t <= h'
    ensures Holds(f, disk(t, p))
  {
    hide NoStampReturns, Collected;
    HistoryHeld(disk, p, f, h, l, d, h', l', d', t);
    forall name | name in RBaseNames(disk(t, p).files)
      ensures name in f.packages && disk(t, p).files[name].stamp == f.packages[name]
    {
      PackageHeld(disk, p, f, name, h, l, d, h', l', d', t);
    }
    ListingHeld(disk, p, f, h, l, d, h', l', d', t);
  }

  lemma HistoryHeld(disk: Disk, p: Path, f: Fingerprint, h: nat, l: nat, d: nat, h': nat, l': nat, d': nat, t: nat)
    requires NoStampReturns(disk)
    requires Collected(disk, p, f, h, l, d) && Collected(disk, p, f, h', l', d') && d <= t <= h'
    ensures disk(t, p).Present? && disk(t, p).stamp == f.directory && SeenHistory(disk, p, f, t)
  {
    assert DirectoryKept(disk, p, d, t, d') && DirectoryKept(disk, p, d, h', d');
    assert FileKept(disk, p, HISTORY, h, t, h');
    SameRBaseNames(disk(h', p).files, disk(t, p).files);
  }

  lemma ListingHeld(disk: Disk, p: Path, f: Fingerprint, h: nat, l: nat, d: nat, h': nat, l': nat, d': nat, t: nat)
    requires NoStampReturns(disk)
    requires Collected(disk, p, f, h, l, d) && Collected(disk, p, f, h', l', d') && d <= t <= h'
    ensures f.packages.Keys <= RBaseNames(disk(t, p).Files())
  {
    assert DirectoryKept(disk, p, d, t, d') && DirectoryKept(disk, p, d, l', d');
    SameRBaseNames(disk(l', p).files, disk(t, p).files);
  }

  lemma SameRBaseNames(m: map<Name, File>, n: map<Name, File>)
    requires Listing(m) == Listing(n)
    ensures RBaseNames(m) == RBaseNames(n)
    ensures HISTORY in m <==> HISTORY in n
  {
    assert HISTORY in Listing(m) <==> HISTORY in m;
    assert HISTORY in Listing(n) <==> HISTORY in n;
    forall name | IsRBase(name) ensures name in m <==> name in n {
      assert name in Listing(m) <==> name in m;
      assert name in Listing(n) <==> name in n;
    }
  }

  lemma PackageHeld(disk: Disk, p: Path, f: Fingerprint, name: Name,
                    h: nat, l: nat, d: nat, h': nat, l': nat, d': nat, t: nat)
    requires NoStampReturns(disk)
    requires Collected(disk, p, f, h, l, d) && Collected(disk, p, f, h', l', d') && d <= t <= h'
    requires name in RBaseNames(disk(t, p).Files())
    ensures name in f.packages && disk(t, p).Files()[name].stamp == f.packages[name]
  {
    assert DirectoryKept(disk, p, d, t, d') && DirectoryKept(disk, p, d, l', d');
    SameRBaseNames(disk(l', p).files, disk(t, p).files);
    assert SeenPackageDuring(disk, p, f, name, l', d');
    var u: nat :| l' <= u <= d' && SeenPackage(disk, p, f, name, u);
    assert DirectoryKept(disk, p, d, u, d');
    SameRBaseNames(disk(u, p).files, disk(t, p).files);
    assert name in RBaseNames(disk(u, p).files);
    assert name in f.packages;
    assert SeenPackageDuring(disk, p, f, name, l, d);
    var v: nat :| l <= v <= d && SeenPackage(disk, p, f, name, v);
    assert FileKept(disk, p, name, v, t, u);
  }

  /** While a fingerprint holds at both ends of an interval nothing it covers
      differs between them. */
  lemma HeldThroughout(disk: Disk, p: Path, f: Fingerprint, i: nat, k: nat)
    requires NoStampReturns(disk) && i <= k
    requires Holds(f, disk(i, p)) && Holds(f, disk(k, p))
    ensures CoveredSame(disk(i, p), disk(k, p))
  {
    assert FileKept(disk, p, HISTORY, i, k, k);
    forall name | name in RBaseNames(disk(i, p).files)
      ensures disk(i, p).files[name].content == disk(k, p).files[name].content
    {
      assert name in f.packages;
      assert FileKept(disk, p, name, i, k, k);
    }
  }

  /** A collect that finds an older fingerprint finds the directory as it was
      covered then, at the instant the collect began. */
  lemma OldFingerprintCollected(disk: Disk, p: Path, f: Fingerprint, i: nat, from: nat, to: nat)
    requires NoStampReturns(disk) && i <= from
    requires Holds(f, disk(i, p)) && CollectedDuring(disk, p, f, from, to)
    ensures CoveredSame(disk(i, p), disk(from, p))
  {
    var h: nat, l: nat, d: nat :| from <= h && d <= to && Collected(disk, p, f, h, l, d);
    assert DirectoryKept(disk, p, i, from, d) && DirectoryKept(disk, p, i, l, d);
    assert FileKept(disk, p, HISTORY, i, from, h);
    SameRBaseNames(disk(from, p).files, disk(i, p).files);
    SameRBaseNames(disk(l, p).files, disk(i, p).files);
    forall name | name in RBaseNames(disk(i, p).files)
      ensures disk(i, p).files[name].content == disk(from, p).files[name].content
    {
      assert name in f.packages;
      assert SeenPackageDuring(disk, p, f, name, l, d);
      var u: nat :| l <= u <= d && SeenPackage(disk, p, f, name, u);
      assert FileKept(disk, p, name, i, from, u);
    }
  }

  // ----- When the fingerprint is enough -----

  ghost predicate HistoryIs(d: Directory, h: string) {
    HISTORY in d.Files() && d.Files()[HISTORY].content == h
  }

  /** On every disk, a fingerprint that holds at two instants, the earlier one
      with history `h`, stands for one parse. */
  ghost predicate Coherent(parser: Parser, h: string) {
    forall disk: Disk, p: Path, f: Fingerprint, i: nat, k: nat
      | NoStampReturns(disk) && i <= k && Holds(f, disk(i, p)) && Holds(f, disk(k, p)) && HistoryIs(disk(i, p), h) ::
        Parse(parser, disk(i, p)) == Parse(parser, disk(k, p))
  }

  /** Some content of a package file gives more than the bare version. */
  predicate Decodes(parser: Parser, c: string, v: string) {
    parser.decode(c, v).Some? && parser.decode(c, v) != Some(Info(v, None))
  }

  /** The fingerprint does not cover a package below a subdirectory, and the hash
      taken from the history may contain a slash. So the cache is coherent for a
      history exactly when the package it designates, if any, lies directly in the
      directory, provided the decoder can report anything but the bare version. */
  lemma CoherentExactlyWhenCovered(parser: Parser, h: string, c: string)
    requires parser.designate(h).Some? ==> Decodes(parser, c, parser.designate(h).value.0)
    ensures Coherent(parser, h) <==> DesignatesCovered(parser, h)
  {
    if DesignatesCovered(parser, h) {
      forall disk: Disk, p: Path, f: Fingerprint, i: nat, k: nat
        | NoStampReturns(disk) && i <= k && Holds(f, disk(i, p)) && Holds(f, disk(k, p)) && HistoryIs(disk(i, p), h)
        ensures Parse(parser, disk(i, p)) == Parse(parser, disk(k, p))
      {
        HeldThroughout(disk, p, f, i, k);
        ParseCovered(parser, disk(i, p), disk(k, p));
      }
    } else {
      var (v, hash) := parser.designate(h).value;
      StaleBelowSubdirectory(parser, h, v, hash, c);
    }
  }

  function WithNested(h: string, name: Name, c: string): Directory {
    Present(Stamp(0, 0), map[HISTORY := File(Stamp(0, 0), h), name := File(Stamp(0, 0), c)])
  }

  function WithoutNested(h: string): Directory {
    Present(Stamp(0, 0), map[HISTORY := File(Stamp(0, 0), h)])
  }

  lemma RemovalKeepsStamps(disk: Disk, h: string, name: Name, c: string)
    requires '/' in name
    requires forall t: nat, p :: disk(t, p) == if t == 0 then WithNested(h, name, c) else WithoutNested(h)
    ensures NoStampReturns(disk)
  {
    assert Listing(WithNested(h, name, c).files) == {HISTORY} == Listing(WithoutNested(h).files);
  }

  /** The package below a subdirectory is removed: the fingerprint still holds. */
  lemma StaleBelowSubdirectory(parser: Parser, h: string, v: string, hash: string, c: string)
    requires parser.designate(h) == Some((v, hash))
    requires Decodes(parser, c, v)
    requires '/' in PackageName(v, hash)
    ensures !Coherent(parser, h)
  {
    var name := PackageName(v, hash);
    assert name[0] == 'r';
    var d, e := WithNested(h, name, c), WithoutNested(h);
    var disk: Disk := (t: nat, p: Path) => if t == 0 then d else e;
    var f := Fingerprint(Stamp(0, 0), Some(Stamp(0, 0)), map[]);
    assert Listing(d.files) == {HISTORY} == Listing(e.files);
    assert RBaseNames(d.files) == {} == RBaseNames(e.files);
    RemovalKeepsStamps(disk, h, name, c);
    NestedParses(parser, h, v, hash, c);
    hide Parse, NoStampReturns;
    assert Holds(f, disk(0, "")) && Holds(f, disk(1, "")) && HistoryIs(disk(0, ""), h);
  }

  lemma NestedParses(parser: Parser, h: string, v: string, hash: string, c: string)
    requires parser.designate(h) == Some((v, hash))
    requires '/' in PackageName(v, hash) && Decodes(parser, c, v)
    ensures Parse(parser, WithNested(h, PackageName(v, hash), c)) == parser.decode(c, v)
    ensures Parse(parser, WithoutNested(h)) == Some(Info(v, None))
  {
    assert PackageName(v, hash)[0] == 'r';
    var e := WithoutNested(h);
    assert RBaseNames(e.files) == {};
    assert Candidates(parser, {}) == {};
    assert First({}).None?;
    assert OfVersion(Candidates(parser, {}), v) == {};
  }
}
