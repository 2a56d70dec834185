/** The process-wide map from executables to their cache entries. Creating an entry
    and changing the directory each take two critical sections, under two locks, so
    they may interleave. */
module CacheMap {
  import opened Basics
  import opened StampCache

  /** An executable has at most one entry; the first one stays. */
  function Occupied<V>(locks: map<Path, V>, executable: Path, v: V): map<Path, V> {
    if executable in locks then locks else locks[executable := v]
  }

  // ----- The object: one method per critical section -----

  class Cache {
    const storage: Storage
    var cacheDirectory: Option<Path>
    var locks: map<Path, CacheEntry>

    ghost predicate Valid()
      reads this
    {
      forall e | e in locks :: locks[e].executable == e && locks[e].storage == storage
    }

    /** The directories the entries were created for. */
    ghost function Directories(): map<Path, Option<Path>>
      reads this
    {
      map e | e in locks :: locks[e].cacheDirectory
    }

    constructor (storage: Storage, cacheDirectory: Option<Path>)
      ensures Valid() && this.storage == storage && this.cacheDirectory == cacheDirectory && locks == map[]
    {
      this.storage, this.cacheDirectory := storage, cacheDirectory;
      locks := map[];
    }

    /** `create_cache`, first section. */
    method ReadDirectory() returns (directory: Option<Path>)
      ensures directory == cacheDirectory
    {
      directory := cacheDirectory;
    }

    /** `create_cache`, second section, with the directory read in the first. */
    method EntryFor(executable: Path, directory: Option<Path>) returns (entry: CacheEntry)
      requires Valid()
      modifies this`locks
      ensures Valid() && executable in locks && locks[executable] == entry
      ensures locks == Occupied(old(locks), executable, entry)
      ensures Directories() == Occupied(old(Directories()), executable, directory)
      ensures executable !in old(locks) ==> fresh(entry) && entry.State() == Entry(directory, executable, None, [])
    {
      if executable in locks {
        entry := locks[executable];
      } else {
        entry := new CacheEntry(storage, directory, executable);
        ghost var before := locks;
        locks := locks[executable := entry];
        assert forall e | e in before :: locks[e] == before[e];
      }
    }

    /** `set_cache_directory`, first section. */
    method ReplaceDirectory(directory: Path) returns (changed: bool)
      modifies this`cacheDirectory
      ensures cacheDirectory == Some(directory)
      ensures changed <==> old(cacheDirectory) != cacheDirectory
    {
      var replaced := cacheDirectory;
      cacheDirectory := Some(directory);
      changed := replaced != Some(directory);
    }

    /** The second section of `set_cache_directory` after a change, and the first one
        of `clear`. */
    method ForgetEntries()
      modifies this`locks
      ensures Valid() && locks == map[]
    {
      locks := map[];
    }

    /** The removal in `clear`: `left` are the files that could not be removed. */
    method RemoveFiles(left: set<Path>)
      modifies storage`disk
      // What lies below the directory is gone as far as possible, the rest is untouched.
      ensures forall p :: p in storage.disk <==>
                p in old(storage.disk) && (cacheDirectory.Some? && cacheDirectory.value <= p ==> p in left)
      ensures forall p | p in storage.disk :: storage.disk[p] == old(storage.disk)[p]
      // It is the step the runs of the stamp cache take.
      ensures storage.disk == ClearedDisk(old(storage.disk), cacheDirectory, left)
    {
      if cacheDirectory.Some? {
        storage.disk := ClearedDisk(storage.disk, cacheDirectory, left);
      }
    }
  }

  // ----- Interleavings -----

  type Tid = nat

  datatype Creation = Creation(executable: Path, directory: Option<Path>)

  /** `creating` are the threads between the sections of `create_cache`, and
      `forgetting` those between the sections of a `set_cache_directory` that changed
      the directory. `under` is history: the directory when an entry was inserted. */
  datatype MapState = MapState(
    directory: Option<Path>,
    locks: map<Path, Option<Path>>,
    under: map<Path, Option<Path>>,
    creating: map<Tid, Creation>,
    forgetting: set<Tid>)

  datatype MapStep =
    | Read(t: Tid, executable: Path)
    | Insert(t: Tid)
    | Replace(t: Tid, directory: Path)
    | Forget(t: Tid)
    | Wipe                                 // `clear`

  predicate Enabled(s: MapState, a: MapStep) {
    match a
    case Read(t, _) => t !in s.creating
    case Insert(t) => t in s.creating
    case Replace(t, _) => t !in s.forgetting
    case Forget(t) => t in s.forgetting
    case Wipe => true
  }

  function Apply(s: MapState, a: MapStep): MapState
    requires Enabled(s, a)
  {
    match a
    case Read(t, executable) => s.(creating := s.creating[t := Creation(executable, s.directory)])
    case Insert(t) =>
      var c := s.creating[t];
      s.(locks := Occupied(s.locks, c.executable, c.directory), under := Occupied(s.under, c.executable, s.directory),
         creating := s.creating - {t})
    case Replace(t, directory) =>
      s.(directory := Some(directory),
         forgetting := if s.directory == Some(directory) then s.forgetting else s.forgetting + {t})
    case Forget(t) => s.(locks := map[], under := map[], forgetting := s.forgetting - {t})
    case Wipe => s.(locks := map[], under := map[])
  }

  function Start(directory: Option<Path>): MapState {
    MapState(directory, map[], map[], map[], {})
  }

  /** A step that is not enabled leaves the state alone. */
  function Run(directory: Option<Path>, steps: seq<MapStep>): MapState {
    if steps == [] then Start(directory)
    else
      var s := Run(directory, steps[..|steps| - 1]);
      var a := steps[|steps| - 1];
      if Enabled(s, a) then Apply(s, a) else s
  }

  /** Unless a change still has its entries to forget, the directory is the one under
      which every entry was inserted. */
  ghost predicate Settled(s: MapState) {
    && s.under.Keys == s.locks.Keys
    && (s.forgetting == {} ==> forall e | e in s.locks :: s.under[e] == s.directory)
  }

  lemma StepSettled(s: MapState, a: MapStep)
    requires Settled(s) && Enabled(s, a)
    ensures Settled(Apply(s, a))
  {
    if a.Replace? && s.directory != Some(a.directory) {
      assert a.t in Apply(s, a).forgetting;
    }
  }

  lemma {:induction false} RunSettled(directory: Option<Path>, steps: seq<MapStep>)
    ensures Settled(Run(directory, steps))
  {
    if steps != [] {
      var (before, a) := (steps[..|steps| - 1], steps[|steps| - 1]);
      RunSettled(directory, before);
      if Enabled(Run(directory, before), a) { StepSettled(Run(directory, before), a); }
    }
  }

  /** In every run, once no change is half way, an entry is for the current directory
      exactly when the directory read for it was still the directory when it was
      inserted. */
  lemma CurrentExactlyWhen(directory: Option<Path>, steps: seq<MapStep>, executable: Path)
    requires Run(directory, steps).forgetting == {} && executable in Run(directory, steps).locks
    ensures var s := Run(directory, steps);
            && executable in s.under
            && (s.locks[executable] == s.directory <==> s.locks[executable] == s.under[executable])
  {
    RunSettled(directory, steps);
  }

  /** No change of directory happens while an entry is being created. */
  ghost predicate Undisturbed(directory: Option<Path>, steps: seq<MapStep>) {
    forall i | 0 <= i < |steps| && steps[i].Replace? ::
      Run(directory, steps[..i]).creating == map[] || Run(directory, steps[..i]).directory == Some(steps[i].directory)
  }

  /** Then no entry is ever for another directory, unless about to be forgotten. */
  lemma {:induction false} UndisturbedMeansCurrent(directory: Option<Path>, steps: seq<MapStep>)
    requires Undisturbed(directory, steps)
    ensures var s := Run(directory, steps);
            && (forall t | t in s.creating :: s.creating[t].directory == s.directory)
            && (s.forgetting == {} ==> forall e | e in s.locks :: s.locks[e] == s.directory)
  {
    if steps != [] {
      var (before, a) := (steps[..|steps| - 1], steps[|steps| - 1]);
      assert forall i | 0 <= i < |before| :: before[i] == steps[i] && before[..i] == steps[..i];
      UndisturbedMeansCurrent(directory, before);
      var s := Run(directory, before);
      if a.Replace? && s.directory != Some(a.directory) && Enabled(s, a) {
        assert a.t in Apply(s, a).forgetting;
      }
    }
  }

  /** The race: a creation reads the directory, a change replaces and forgets, and
      then the entry is inserted. It is for the old directory, and stays. */
  lemma RaceLeavesStaleEntry(old_: Path, new_: Path, executable: Path)
    requires old_ != new_
    ensures var s := Run(Some(old_), [Read(0, executable), Replace(1, new_), Forget(1), Insert(0)]);
            && s.directory == Some(new_) && s.forgetting == {} && s.creating == map[]
            && executable in s.locks && s.locks[executable] == Some(old_)
  {
    var one := [] + [Read(0, executable)];
    var two := one + [Replace(1, new_)];
    var three := two + [Forget(1)];
    RunStep(Some(old_), [], Read(0, executable));
    RunStep(Some(old_), one, Replace(1, new_));
    RunStep(Some(old_), two, Forget(1));
    RunStep(Some(old_), three, Insert(0));
    assert three + [Insert(0)] == [Read(0, executable), Replace(1, new_), Forget(1), Insert(0)];
  }

  lemma RunStep(directory: Option<Path>, steps: seq<MapStep>, a: MapStep)
    ensures var s := Run(directory, steps);
            Run(directory, steps + [a]) == if Enabled(s, a) then Apply(s, a) else s
  {
    assert (steps + [a])[..|steps|] == steps;
  }

  /** Later creations return the entry that is there; only a change or a clear
      forgets it. */
  lemma EntryStays(s: MapState, a: MapStep, executable: Path)
    requires Enabled(s, a) && executable in s.locks && !a.Forget? && !a.Wipe?
    ensures executable in Apply(s, a).locks && Apply(s, a).locks[executable] == s.locks[executable]
  {
  }
}
