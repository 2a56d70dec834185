/** The cache of one executable's installation, in memory and on disk, kept valid
    by the time stamps of the files it was resolved from. */
module StampCache {
  import opened Basics
  import opened Sorting

  /** The components of a path. */
  type Path = seq<string>

  datatype Metadata = Metadata(isFile: bool, modified: Option<int>, created: Option<int>)

  type Files = map<Path, Metadata>

  datatype Stamp = Stamp(path: Path, modified: int, created: Option<int>)

  datatype Installation = Installation(knownExecutables: Option<seq<Path>>, metadataFiles: seq<Path>, details: string)
  {
    function Known(): seq<Path> { if knownExecutables.Some? then knownExecutables.value else [] }

    /** The files whose stamps are taken when the installation is stored. */
    function Sources(): seq<Path> { Known() + metadataFiles }
  }

  /** The cache files that decode, by their paths. */
  datatype CacheFile = CacheFile(installation: Installation, executables: seq<Stamp>)

  type Disk = map<Path, CacheFile>

  /** The digest of an executable's path: any function, collisions included. */
  type Digest = Path -> string

  function CacheFilePath(digest: Digest, directory: Path, executable: Path): Path {
    directory + [digest(executable) + ".7.json"]
  }

  /** Two executables share a cache file only in one directory and with one digest. */
  lemma CacheFilesApart(digest: Digest, directory: Path, executable: Path, other: Path, otherExecutable: Path)
    requires CacheFilePath(digest, directory, executable) == CacheFilePath(digest, other, otherExecutable)
    ensures directory == other && digest(executable) == digest(otherExecutable)
  {
    var (p, q) := (CacheFilePath(digest, directory, executable), CacheFilePath(digest, other, otherExecutable));
    assert directory == p[..|p| - 1] && other == q[..|q| - 1];
    var (a, b) := (p[|p| - 1], q[|q| - 1]);
    assert digest(executable) == a[..|a| - 7] && digest(otherExecutable) == b[..|b| - 7];
  }

  // ----- Stamps -----

  predicate IsFile(files: Files, p: Path) {
    p in files && files[p].isFile
  }

  /** The file is still the one that was stamped. */
  predicate Matches(stamp: Stamp, files: Files) {
    && IsFile(files, stamp.path)
    && files[stamp.path].modified == Some(stamp.modified)
    && (stamp.created.Some? ==> files[stamp.path].created == stamp.created)
  }

  predicate AllMatch(stamps: seq<Stamp>, files: Files) {
    forall s | s in stamps :: Matches(s, files)
  }

  predicate CanStamp(files: Files, p: Path) {
    p in files && files[p].modified.Some?
  }

  function StampOf(files: Files, p: Path): Stamp
    requires CanStamp(files, p)
  {
    Stamp(p, files[p].modified.value, files[p].created)
  }

  /** The stamps of those paths that have a modification time. */
  function Stamps(paths: seq<Path>, files: Files): seq<Stamp> {
    if paths == [] then []
    else (if CanStamp(files, paths[0]) then [StampOf(files, paths[0])] else []) + Stamps(paths[1..], files)
  }

  lemma {:induction false} StampsAre(paths: seq<Path>, files: Files)
    ensures forall s :: s in Stamps(paths, files) <==>
              s.path in paths && CanStamp(files, s.path) && s == StampOf(files, s.path)
  {
    if paths != [] {
      StampsAre(paths[1..], files);
      assert forall p :: p in paths <==> p == paths[0] || p in paths[1..];
    }
  }

  predicate TimeLeq(a: Option<int>, b: Option<int>) {
    a.None? || (b.Some? && a.value <= b.value)
  }

  predicate StampLeq(a: Stamp, b: Stamp) {
    if a.path != b.path then PathLeq(a.path, b.path)
    else if a.modified != b.modified then a.modified <= b.modified
    else TimeLeq(a.created, b.created)
  }

  function StoredStamps(installation: Installation, files: Files): seq<Stamp> {
    SortDedup(Stamps(installation.Sources(), files), StampLeq)
  }

  lemma StoredStampsAre(installation: Installation, files: Files)
    ensures forall s :: s in StoredStamps(installation, files)
              <==> s.path in installation.Sources() && CanStamp(files, s.path) && s == StampOf(files, s.path)
  {
    var taken := Stamps(installation.Sources(), files);
    StampsAre(installation.Sources(), files);
    SortDedupElements(taken, StampLeq);
    assert forall s :: s in StoredStamps(installation, files) <==> s in Elements(StoredStamps(installation, files));
    assert forall s :: s in taken <==> s in Elements(taken);
  }

  /** The stamp is of a file that has a modification time, as the file is. */
  predicate TakenFrom(s: Stamp, files: Files) {
    s.path in files && files[s.path].modified == Some(s.modified) && files[s.path].created == s.created
  }

  lemma TakenStamps(files: Files)
    ensures forall s :: TakenFrom(s, files) <==> CanStamp(files, s.path) && s == StampOf(files, s.path)
  {
  }

  // ----- What each operation does to the entry and the disk -----

  datatype Entry = Entry(cacheDirectory: Option<Path>, executable: Path,
                         installation: Option<Installation>, executables: seq<Stamp>)

  predicate Invalid(entry: Entry, files: Files) {
    !AllMatch(entry.executables, files) || !IsFile(files, entry.executable)
  }

  function Removed(disk: Disk, p: Path, removes: bool): Disk {
    if removes then disk - {p} else disk
  }

  /** `removes` says whether the file system lets the cache file be removed. */
  function Verified(entry: Entry, disk: Disk, files: Files, digest: Digest, removes: bool): (Entry, Disk) {
    if !Invalid(entry, files) then (entry, disk)
    else
      (entry.(installation := None),
       if entry.cacheDirectory.None? then disk
       else Removed(disk, CacheFilePath(digest, entry.cacheDirectory.value, entry.executable), removes))
  }

  /** What a cache file gives for an executable. */
  function Loaded(disk: Disk, p: Path, executable: Path, files: Files): Option<CacheFile> {
    if p in disk && executable in disk[p].installation.Known() && AllMatch(disk[p].executables, files)
    then Some(disk[p])
    else None
  }

  /** A cache file of this executable with a stamp that no longer matches is removed. */
  function Purged(disk: Disk, p: Path, executable: Path, files: Files, removes: bool): Disk {
    if p in disk && executable in disk[p].installation.Known() && !AllMatch(disk[p].executables, files)
    then Removed(disk, p, removes)
    else disk
  }

  function Got(entry: Entry, disk: Disk, files: Files, digest: Digest, removes: (bool, bool))
    : (Entry, Disk, Option<Installation>)
  {
    var (e, d) := Verified(entry, disk, files, digest, removes.0);
    if e.installation.Some? then (e, d, e.installation)
    else if e.cacheDirectory.None? then (e, d, None)
    else
      var p := CacheFilePath(digest, e.cacheDirectory.value, e.executable);
      var loaded := Loaded(d, p, e.executable, files);
      if loaded.None? then (e, Purged(d, p, e.executable, files, removes.1), None)
      else (e.(installation := Some(loaded.value.installation), executables := loaded.value.executables), d,
            Some(loaded.value.installation))
  }

  /** Writing a cache file may fail before it is opened, or leave it undecodable. */
  datatype Writing = Written | NotOpened | Spoiled

  function Put(disk: Disk, p: Path, file: CacheFile, writing: Writing): Disk {
    match writing
    case Written => disk[p := file]
    case NotOpened => disk
    case Spoiled => disk - {p}
  }

  function StoredEntry(entry: Entry, disk: Disk, files: Files, digest: Digest,
                       installation: Installation, writing: Writing)
    : (Entry, Disk)
  {
    var stamps := StoredStamps(installation, files);
    (entry.(installation := Some(installation), executables := stamps),
     if entry.cacheDirectory.None? then disk
     else Put(disk, CacheFilePath(digest, entry.cacheDirectory.value, entry.executable),
              CacheFile(installation, stamps), writing))
  }

  function StampedPaths(stamps: seq<Stamp>): set<Path> {
    set s | s in stamps :: s.path
  }

  function Untracked(paths: seq<Path>, known: set<Path>): seq<Path> {
    if paths == [] then []
    else (if paths[0] in known then [] else [paths[0]]) + Untracked(paths[1..], known)
  }

  lemma {:induction false} UntrackedAre(paths: seq<Path>, known: set<Path>)
    ensures forall p :: p in Untracked(paths, known) <==> p in paths && p !in known
  {
    if paths != [] {
      UntrackedAre(paths[1..], known);
      assert forall p :: p in paths <==> p == paths[0] || p in paths[1..];
    }
  }

  function Tracked(entry: Entry, disk: Disk, files: Files, digest: Digest, paths: seq<Path>, removes: bool)
    : (Entry, Disk)
  {
    var (e, d) := Verified(entry, disk, files, digest, removes);
    (e.(executables := e.executables + Stamps(Untracked(paths, StampedPaths(e.executables)), files)), d)
  }

  // ----- The objects -----

  /** The file system: the files that carry stamps, and the cache files. */
  class Storage {
    const digest: Digest
    var files: Files
    var disk: Disk

    constructor (digest: Digest)
      ensures this.digest == digest && files == map[] && disk == map[]
    {
      this.digest := digest;
      files, disk := map[], map[];
    }
  }

  class CacheEntry {
    const storage: Storage
    const cacheDirectory: Option<Path>
    const executable: Path
    var installation: Option<Installation>
    var executables: seq<Stamp>

    constructor (storage: Storage, cacheDirectory: Option<Path>, executable: Path)
      ensures this.storage == storage && State() == Entry(cacheDirectory, executable, None, [])
    {
      this.storage, this.cacheDirectory, this.executable := storage, cacheDirectory, executable;
      installation, executables := None, [];
    }

    ghost function State(): Entry
      reads this
    {
      Entry(cacheDirectory, executable, installation, executables)
    }

    method VerifyInMemoryCache(removes: bool)
      modifies this`installation, storage`disk
      ensures (State(), storage.disk)
           == Verified(old(State()), old(storage.disk), storage.files, storage.digest, removes)
      ensures executables == old(executables)
      ensures installation == if IsFile(storage.files, executable) && AllMatch(executables, storage.files)
                              then old(installation) else None
      // The cache file goes with a value that is no longer valid.
      ensures storage.disk ==
              if removes && cacheDirectory.Some?
                 && !(IsFile(storage.files, executable) && AllMatch(executables, storage.files))
              then old(storage.disk) - {CacheFilePath(storage.digest, cacheDirectory.value, executable)}
              else old(storage.disk)
      ensures installation.Some? ==> IsFile(storage.files, executable) && AllMatch(executables, storage.files)
    {
      var invalid := false;
      for i := 0 to |executables|
        invariant invalid <==> !AllMatch(executables[..i], storage.files)
      {
        assert executables[..i + 1] == executables[..i] + [executables[i]];
        if !Matches(executables[i], storage.files) { invalid := true; }
      }
      assert executables[..|executables|] == executables;
      if invalid || !IsFile(storage.files, executable) {
        installation := None;
        if cacheDirectory.Some? {
          var p := CacheFilePath(storage.digest, cacheDirectory.value, executable);
          if removes { storage.disk := storage.disk - {p}; }
        }
      }
    }

    /** `get_cache_from_file`. */
    method ReadCacheFile(p: Path, removes: bool) returns (r: Option<CacheFile>)
      modifies storage`disk
      ensures r == Loaded(old(storage.disk), p, executable, storage.files)
      ensures storage.disk == Purged(old(storage.disk), p, executable, storage.files, removes)
      ensures r.Some? <==> p in old(storage.disk) && executable in old(storage.disk)[p].installation.Known()
                           && AllMatch(old(storage.disk)[p].executables, storage.files)
      ensures r.Some? ==> r.value == old(storage.disk)[p]
      // A file of another executable stays, whatever its stamps say.
      ensures storage.disk ==
              if removes && r.None? && p in old(storage.disk)
                 && executable in old(storage.disk)[p].installation.Known()
              then old(storage.disk) - {p} else old(storage.disk)
    {
      if p !in storage.disk { return None; }
      var cache := storage.disk[p];
      if executable !in cache.installation.Known() { return None; }
      var valid := AllMatch(cache.executables, storage.files);
      if valid { return Some(cache); }
      if removes { storage.disk := storage.disk - {p}; }
      return None;
    }

    method Get(removes: (bool, bool)) returns (r: Option<Installation>)
      modifies this, storage`disk
      ensures (State(), storage.disk, r) == Got(old(State()), old(storage.disk), storage.files, storage.digest, removes)
      // Whatever is returned is what the entry now holds, and all its stamps match.
      ensures r.Some? ==> installation == r && AllMatch(executables, storage.files)
    {
      VerifyInMemoryCache(removes.0);
      if installation.Some? { return installation; }
      if cacheDirectory.None? { return None; }
      var cache := ReadCacheFile(CacheFilePath(storage.digest, cacheDirectory.value, executable), removes.1);
      if cache.None? { return None; }
      installation := Some(cache.value.installation);
      executables := cache.value.executables;
      return installation;
    }

    /** The loop of `store` over the files of the value. */
    method TakeStamps(sources: seq<Path>) returns (taken: seq<Stamp>)
      ensures taken == Stamps(sources, storage.files)
    {
      taken := [];
      for i := 0 to |sources|
        invariant Stamps(sources, storage.files) == taken + Stamps(sources[i..], storage.files)
      {
        assert sources[i..][1..] == sources[i + 1..];
        if CanStamp(storage.files, sources[i]) {
          taken := taken + [StampOf(storage.files, sources[i])];
        }
      }
      assert taken + [] == taken;
    }

    method Store(value: Installation, writing: Writing)
      modifies this, storage`disk
      ensures (State(), storage.disk)
           == StoredEntry(old(State()), old(storage.disk), storage.files, storage.digest, value, writing)
      // Exactly the files with a modification time are stamped, as they are now.
      ensures installation == Some(value)
      ensures forall s :: s in executables <==> s.path in value.Sources() && TakenFrom(s, storage.files)
    {
      TakenStamps(storage.files);
      hide SortDedup, CanStamp, TakenFrom;
      var taken := TakeStamps(value.Sources());
      StoredStampsAre(value, storage.files);
      executables := SortDedup(taken, StampLeq);
      installation := Some(value);
      if cacheDirectory.Some? {
        var p := CacheFilePath(storage.digest, cacheDirectory.value, executable);
        storage.disk := Put(storage.disk, p, CacheFile(value, executables), writing);
      }
    }

    /** The filters of `track_executables`. */
    method TakeUntracked(paths: seq<Path>, known: set<Path>) returns (added: seq<Stamp>)
      ensures added == Stamps(Untracked(paths, known), storage.files)
    {
      ghost var all := Stamps(Untracked(paths, known), storage.files);
      added := [];
      for i := 0 to |paths|
        invariant all == added + Stamps(Untracked(paths[i..], known), storage.files)
      {
        assert paths[i..][1..] == paths[i + 1..];
        ghost var rest := Untracked(paths[i + 1..], known);
        assert Untracked(paths[i..], known) == if paths[i] in known then rest else [paths[i]] + rest;
        if paths[i] !in known {
          assert ([paths[i]] + rest)[1..] == rest;
          if CanStamp(storage.files, paths[i]) {
            added := added + [StampOf(storage.files, paths[i])];
          }
        }
      }
      assert added + [] == added;
    }

    method TrackExecutables(paths: seq<Path>, removes: bool)
      modifies this, storage`disk
      ensures (State(), storage.disk)
           == Tracked(old(State()), old(storage.disk), storage.files, storage.digest, paths, removes)
      // Stamps are only added, and the installation is kept only if it is valid.
      ensures old(executables) <= executables
      ensures forall s :: s in executables <==>
                || s in old(executables)
                || (s.path in paths && (forall known | known in old(executables) :: known.path != s.path)
                    && TakenFrom(s, storage.files))
      ensures installation.Some? ==> installation == old(installation) && IsFile(storage.files, executable)
    {
      VerifyInMemoryCache(removes);
      var known := StampedPaths(executables);
      UntrackedAre(paths, known);
      StampsAre(Untracked(paths, known), storage.files);
      var added := TakeUntracked(paths, known);
      executables := executables + added;
    }
  }

  /** What removing the directory leaves: `left` are the cache files that could not
      be removed. */
  function ClearedDisk(disk: Disk, directory: Option<Path>, left: set<Path>): Disk {
    if directory.None? then disk
    else map p | p in disk && (!(directory.value <= p) || p in left) :: disk[p]
  }
}
