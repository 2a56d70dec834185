/** Runs of the stamp cache: any number of entries, kept by their holders even
    after the process-wide map forgot them, over a changing file system. */
module StampCacheRuns {
  import opened Basics
  import opened Sorting
  import opened StampCache

  datatype StoreEvent = StoreEvent(installation: Installation, files: Files)

  /** `log` is history: what was stored, and the files as they were then. */
  datatype World = World(files: Files, disk: Disk, entries: seq<Entry>, log: seq<StoreEvent>)

  datatype Action =
    | Open(directory: Option<Path>, executable: Path)
    | Get(i: nat, removes: (bool, bool))
    | Store(i: nat, installation: Installation, writing: Writing)
    | Track(i: nat, paths: seq<Path>, removed: bool)
    | Clear(cleared: Option<Path>, left: set<Path>)
    | Change(files: Files)
    | Lose(p: Path)

  function Updated(w: World, i: nat, state: (Entry, Disk)): World
    requires i < |w.entries|
  {
    w.(entries := w.entries[i := state.0], disk := state.1)
  }

  function Next(digest: Digest, w: World, a: Action): World {
    match a
    case Open(directory, executable) => w.(entries := w.entries + [Entry(directory, executable, None, [])])
    case Get(i, removes) =>
      if i >= |w.entries| then w
      else var g := Got(w.entries[i], w.disk, w.files, digest, removes); Updated(w, i, (g.0, g.1))
    case Store(i, v, writing) =>
      if i >= |w.entries| then w
      else
        var stored := StoredEntry(w.entries[i], w.disk, w.files, digest, v, writing);
        Updated(w, i, stored).(log := w.log + [StoreEvent(v, w.files)])
    case Track(i, paths, removes) =>
      if i >= |w.entries| then w
      else Updated(w, i, Tracked(w.entries[i], w.disk, w.files, digest, paths, removes))
    case Clear(directory, left) => w.(disk := ClearedDisk(w.disk, directory, left))
    case Change(files) => w.(files := files)
    case Lose(p) => w.(disk := w.disk - {p})
  }

  function Run(digest: Digest, actions: seq<Action>): World {
    if actions == [] then World(map[], map[], [], [])
    else Next(digest, Run(digest, actions[..|actions| - 1]), actions[|actions| - 1])
  }

  // ----- Where a cached value comes from -----

  ghost predicate RecordedAt(event: StoreEvent, v: Installation, stamps: seq<Stamp>) {
    event.installation == v && forall s | s in StoredStamps(v, event.files) :: s in stamps
  }

  /** The value was stored once, and every stamp taken then is among these. */
  ghost predicate Recorded(log: seq<StoreEvent>, v: Installation, stamps: seq<Stamp>) {
    exists k: nat :: k < |log| && RecordedAt(log[k], v, stamps)
  }

  lemma RecordedGrows(log: seq<StoreEvent>, more: seq<StoreEvent>, v: Installation, stamps: seq<Stamp>,
                      added: seq<Stamp>)
    requires Recorded(log, v, stamps)
    ensures Recorded(log + more, v, stamps + added)
  {
    var k: nat :| k < |log| && RecordedAt(log[k], v, stamps);
    assert (log + more)[k] == log[k];
    assert RecordedAt((log + more)[k], v, stamps + added);
  }

  ghost predicate EntryTraced(log: seq<StoreEvent>, e: Entry) {
    e.installation.Some? ==> Recorded(log, e.installation.value, e.executables)
  }

  ghost predicate EntriesTraced(log: seq<StoreEvent>, entries: seq<Entry>) {
    forall i | 0 <= i < |entries| :: EntryTraced(log, entries[i])
  }

  ghost predicate DiskTraced(log: seq<StoreEvent>, disk: Disk) {
    forall p | p in disk :: Recorded(log, disk[p].installation, disk[p].executables)
  }

  ghost predicate Traced(w: World) {
    EntriesTraced(w.log, w.entries) && DiskTraced(w.log, w.disk)
  }

  lemma GotTraced(log: seq<StoreEvent>, e: Entry, disk: Disk, files: Files, digest: Digest, removes: (bool, bool))
    requires EntryTraced(log, e) && DiskTraced(log, disk)
    ensures var g := Got(e, disk, files, digest, removes); EntryTraced(log, g.0) && DiskTraced(log, g.1)
  {
  }

  lemma TrackedTraced(log: seq<StoreEvent>, e: Entry, disk: Disk, files: Files, digest: Digest, paths: seq<Path>,
                      removes: bool)
    requires EntryTraced(log, e) && DiskTraced(log, disk)
    ensures var (t, d) := Tracked(e, disk, files, digest, paths, removes); EntryTraced(log, t) && DiskTraced(log, d)
  {
    var (v, _) := Verified(e, disk, files, digest, removes);
    if v.installation.Some? {
      var added := Stamps(Untracked(paths, StampedPaths(v.executables)), files);
      RecordedGrows(log, [], v.installation.value, v.executables, added);
      assert log + [] == log;
    }
  }

  lemma LogTraced(w: World, event: StoreEvent)
    requires Traced(w)
    ensures Traced(w.(log := w.log + [event]))
  {
    forall i | 0 <= i < |w.entries| ensures EntryTraced(w.log + [event], w.entries[i]) {
      var e := w.entries[i];
      if e.installation.Some? {
        RecordedGrows(w.log, [event], e.installation.value, e.executables, []);
        assert e.executables + [] == e.executables;
      }
    }
    forall p | p in w.disk ensures Recorded(w.log + [event], w.disk[p].installation, w.disk[p].executables) {
      RecordedGrows(w.log, [event], w.disk[p].installation, w.disk[p].executables, []);
      assert w.disk[p].executables + [] == w.disk[p].executables;
    }
  }

  lemma StoredTraced(log: seq<StoreEvent>, e: Entry, disk: Disk, files: Files, digest: Digest, v: Installation,
                     writing: Writing)
    requires DiskTraced(log, disk) && StoreEvent(v, files) in log
    ensures var (s, d) := StoredEntry(e, disk, files, digest, v, writing); EntryTraced(log, s) && DiskTraced(log, d)
  {
    var k: nat :| k < |log| && log[k] == StoreEvent(v, files);
    assert RecordedAt(log[k], v, StoredStamps(v, files));
  }

  lemma NextTraced(digest: Digest, w: World, a: Action)
    requires Traced(w)
    ensures Traced(Next(digest, w, a))
  {
    match a {
      case Open(directory, executable) =>
      case Get(i, removes) =>
        if i < |w.entries| {
          GotTraced(w.log, w.entries[i], w.disk, w.files, digest, removes);
        }
      case Store(i, v, writing) =>
        if i < |w.entries| {
          var event := StoreEvent(v, w.files);
          LogTraced(w, event);
          assert event in w.log + [event];
          StoredTraced(w.log + [event], w.entries[i], w.disk, w.files, digest, v, writing);
        }
      case Track(i, paths, removes) =>
        if i < |w.entries| {
          TrackedTraced(w.log, w.entries[i], w.disk, w.files, digest, paths, removes);
        }
      case Clear(directory, left) =>
      case Change(files) =>
      case Lose(p) =>
    }
  }

  lemma {:induction false} RunTraced(digest: Digest, actions: seq<Action>)
    ensures Traced(Run(digest, actions))
  {
    if actions != [] {
      RunTraced(digest, actions[..|actions| - 1]);
      NextTraced(digest, Run(digest, actions[..|actions| - 1]), actions[|actions| - 1]);
    }
  }

  // ----- What a caller may rely on -----

  /** As far as it was stamped then, the file is the same now. */
  ghost predicate Unchanged(q: Path, before: Files, now: Files) {
    q in before && before[q].modified.Some? ==>
      && q in now && now[q].isFile && now[q].modified == before[q].modified
      && (before[q].created.Some? ==> now[q].created == before[q].created)
  }

  ghost predicate AllUnchanged(v: Installation, before: Files, now: Files) {
    forall q | q in v.Sources() :: Unchanged(q, before, now)
  }

  lemma StampsMatchExactly(v: Installation, before: Files, now: Files)
    ensures AllMatch(StoredStamps(v, before), now) <==> AllUnchanged(v, before, now)
  {
    StoredStampsAre(v, before);
    if AllMatch(StoredStamps(v, before), now) {
      forall q | q in v.Sources() && CanStamp(before, q) ensures Unchanged(q, before, now) {
        assert StampOf(before, q) in StoredStamps(v, before);
      }
    }
  }

  /** Whatever happened before, a value comes back only if it was stored at some
      point and none of the files stamped at that point has changed since. */
  lemma GetIsFresh(digest: Digest, actions: seq<Action>, i: nat, removes: (bool, bool)) returns (k: nat)
    requires i < |Run(digest, actions).entries|
    requires var w := Run(digest, actions); Got(w.entries[i], w.disk, w.files, digest, removes).2.Some?
    ensures var w := Run(digest, actions);
            var v := Got(w.entries[i], w.disk, w.files, digest, removes).2.value;
            && k < |w.log| && w.log[k].installation == v
            && AllUnchanged(v, w.log[k].files, w.files)
            && (IsFile(w.files, w.entries[i].executable)
                || StaysOnDisk(w.entries[i], w.disk, w.files, digest, removes))
  {
    var w := Run(digest, actions);
    var g := Got(w.entries[i], w.disk, w.files, digest, removes);
    var v := g.2.value;
    RunTraced(digest, actions);
    GotTraced(w.log, w.entries[i], w.disk, w.files, digest, removes);
    assert g.0.installation == Some(v) && AllMatch(g.0.executables, w.files);
    k :| k < |w.log| && RecordedAt(w.log[k], v, g.0.executables);
    assert AllMatch(StoredStamps(v, w.log[k].files), w.files);
    StampsMatchExactly(v, w.log[k].files, w.files);
    GetWhenInvalid(w.entries[i], w.disk, w.files, digest, removes);
  }

  /** A value that was read from disk names the executable it was read for, even
      when another executable has the same digest. */
  lemma DiskHitNamesExecutable(e: Entry, disk: Disk, files: Files, digest: Digest, removes: (bool, bool))
    requires Got(e, disk, files, digest, removes).2.Some?
    ensures var v := Got(e, disk, files, digest, removes).2.value;
            (e.installation == Some(v) && !Invalid(e, files)) || e.executable in v.Known()
  {
  }

  // ----- When the entry in memory is invalid -----

  /** The cache file could not be removed and passes the checks of the disk. */
  predicate StaysOnDisk(e: Entry, disk: Disk, files: Files, digest: Digest, removes: (bool, bool)) {
    && e.cacheDirectory.Some? && !removes.0
    && Loaded(disk, CacheFilePath(digest, e.cacheDirectory.value, e.executable), e.executable, files).Some?
  }

  function OnDisk(e: Entry, disk: Disk, files: Files, digest: Digest, removes: (bool, bool)): Installation
    requires StaysOnDisk(e, disk, files, digest, removes)
  {
    disk[CacheFilePath(digest, e.cacheDirectory.value, e.executable)].installation
  }

  /** An invalid entry, because a stamp no longer matches or the executable is no
      file, gives a value back exactly when its cache file stays on disk. */
  lemma GetWhenInvalid(e: Entry, disk: Disk, files: Files, digest: Digest, removes: (bool, bool))
    ensures Invalid(e, files) ==>
              Got(e, disk, files, digest, removes).2 ==
              if StaysOnDisk(e, disk, files, digest, removes) then Some(OnDisk(e, disk, files, digest, removes))
              else None
  {
  }

  /** For a missing executable such a cache file never stamped it. */
  lemma ReturnedForMissingExecutable(e: Entry, disk: Disk, files: Files, digest: Digest, removes: (bool, bool))
    requires !IsFile(files, e.executable)
    ensures Got(e, disk, files, digest, removes).2.Some? <==> StaysOnDisk(e, disk, files, digest, removes)
    ensures Got(e, disk, files, digest, removes).2.Some? ==>
              e.executable !in StampedPaths(Got(e, disk, files, digest, removes).0.executables)
  {
    var g := Got(e, disk, files, digest, removes);
    GetWhenInvalid(e, disk, files, digest, removes);
    if g.2.Some? {
      assert forall s | s in g.0.executables :: Matches(s, files);
    }
  }

  /** A missing executable whose cache file cannot be removed. */
  lemma UnremovableCacheFile(digest: Digest)
    ensures var v := Installation(Some([["R"]]), [], "");
            var disk := map[CacheFilePath(digest, ["cache"], ["R"]) := CacheFile(v, [])];
            Got(Entry(Some(["cache"]), ["R"], None, []), disk, map[], digest, (false, false)).2 == Some(v)
  {
    var v := Installation(Some([["R"]]), [], "");
    assert ["R"] in v.Known();
  }

  // ----- What was stored comes back -----

  /** The cache keeps what is valid: after a store, the same entry gives the value
      back while the executable is a file and no stamped file has changed. After
      that it gives what stays on disk, if anything does. */
  lemma StoreThenGet(e: Entry, disk: Disk, before: Files, now: Files, digest: Digest, v: Installation,
                     writing: Writing, removes: (bool, bool))
    ensures var (s, d) := StoredEntry(e, disk, before, digest, v, writing);
            Got(s, d, now, digest, removes).2 ==
            if IsFile(now, e.executable) && AllUnchanged(v, before, now) then Some(v)
            else if StaysOnDisk(s, d, now, digest, removes) then Some(OnDisk(s, d, now, digest, removes))
            else None
  {
    var (s, d) := StoredEntry(e, disk, before, digest, v, writing);
    StampsMatchExactly(v, before, now);
    GetWhenInvalid(s, d, now, digest, removes);
  }

  /** When the value was also written to disk, that is this value, and it stays only
      for a missing executable: a changed file is noticed on disk as well. */
  lemma StoreWrittenThenGet(e: Entry, disk: Disk, before: Files, now: Files, digest: Digest, v: Installation,
                            removes: (bool, bool))
    requires e.cacheDirectory.Some?
    ensures var (s, d) := StoredEntry(e, disk, before, digest, v, Written);
            var r := Got(s, d, now, digest, removes).2;
            && (r == Some(v) <==>
                  && AllUnchanged(v, before, now)
                  && (IsFile(now, e.executable) || (!removes.0 && e.executable in v.Known())))
            && (r.None? || r == Some(v))
  {
    StampsMatchExactly(v, before, now);
    StoreThenGet(e, disk, before, now, digest, v, Written, removes);
  }

  /** So does another process that opens the executable on the same directory. */
  lemma StoreThenGetElsewhere(e: Entry, disk: Disk, before: Files, now: Files, digest: Digest, v: Installation,
                              removes: (bool, bool))
    requires e.cacheDirectory.Some?
    ensures var d := StoredEntry(e, disk, before, digest, v, Written).1;
            var r := Got(Entry(e.cacheDirectory, e.executable, None, []), d, now, digest, removes).2;
            && (r == Some(v) <==>
                  && AllUnchanged(v, before, now) && e.executable in v.Known()
                  && (IsFile(now, e.executable) || !removes.0))
            && (r.None? || r == Some(v))
  {
    StampsMatchExactly(v, before, now);
  }

  // ----- Tracked files -----

  /** As far as tracking promises it, the file is the one of that time. */
  predicate SameFile(q: Path, before: Files, now: Files) {
    q in before && before[q].modified.Some? ==> q in now && now[q].isFile && now[q].modified == before[q].modified
  }

  /** Tracked files guard the value like its own: once one of them has changed, the
      entry gives what stays on disk, if anything does, and nothing else. */
  lemma TrackedFilesGuard(e: Entry, disk: Disk, before: Files, now: Files, digest: Digest, paths: seq<Path>,
                          removed: bool, removes: (bool, bool), q: Path)
    requires q in paths && Tracked(e, disk, before, digest, paths, removed).0.installation.Some?
    ensures var (t, d) := Tracked(e, disk, before, digest, paths, removed);
            !SameFile(q, before, now) ==>
              Got(t, d, now, digest, removes).2 ==
              if StaysOnDisk(t, d, now, digest, removes) then Some(OnDisk(t, d, now, digest, removes)) else None
  {
    var (t, d) := Tracked(e, disk, before, digest, paths, removed);
    if !SameFile(q, before, now) {
      TrackedStamp(e, disk, before, digest, paths, removed, q);
      GetWhenInvalid(t, d, now, digest, removes);
    }
  }

  /** A tracked file has a stamp of its time of modification. */
  lemma TrackedStamp(e: Entry, disk: Disk, before: Files, digest: Digest, paths: seq<Path>, removed: bool, q: Path)
    requires q in paths && CanStamp(before, q) && Tracked(e, disk, before, digest, paths, removed).0.installation.Some?
    ensures exists s :: s in Tracked(e, disk, before, digest, paths, removed).0.executables
                        && s.path == q && Some(s.modified) == before[q].modified
  {
    var (v, _) := Verified(e, disk, before, digest, removed);
    var known := StampedPaths(v.executables);
    var t := Tracked(e, disk, before, digest, paths, removed).0;
    if q in known {
      var s :| s in v.executables && s.path == q;
      assert Matches(s, before) && s in t.executables;
    } else {
      UntrackedAre(paths, known);
      StampsAre(Untracked(paths, known), before);
      assert StampOf(before, q) in t.executables;
    }
  }

  /** An executable, and a file with this time of modification. */
  function TwoFiles(modified: int): Files {
    map[["R"] := Metadata(true, Some(0), None), ["m"] := Metadata(true, Some(modified), None)]
  }

  /** The stamp of a tracked file is not in the cache file. When that cannot be
      removed, the value comes back after the file has changed, although the
      executable is still the file it was. */
  lemma UnremovableTracked(digest: Digest)
    ensures var v := Installation(Some([["R"]]), [], "");
            var (before, now) := (TwoFiles(1), TwoFiles(2));
            var (s, d) := StoredEntry(Entry(Some(["cache"]), ["R"], None, []), map[], before, digest, v, Written);
            var (t, d') := Tracked(s, d, before, digest, [["m"]], true);
            && IsFile(now, ["R"]) && !SameFile(["m"], before, now)
            && t.installation == Some(v) && Got(t, d', now, digest, (false, false)).2 == Some(v)
  {
    var v := Installation(Some([["R"]]), [], "");
    var (before, now) := (TwoFiles(1), TwoFiles(2));
    assert v.Sources() == [["R"]];
    assert ["R"] in v.Known();
    assert ["m"] in [["m"]] && ["R"] != ["m"];
    var (s, d) := StoredEntry(Entry(Some(["cache"]), ["R"], None, []), map[], before, digest, v, Written);
    StampsMatchExactly(v, before, before);
    StampsMatchExactly(v, before, now);
    assert !Invalid(s, before);
    var (t, d') := Tracked(s, d, before, digest, [["m"]], true);
    TrackedFilesGuard(s, d, before, now, digest, [["m"]], true, (false, false), ["m"]);
    assert StaysOnDisk(t, d', now, digest, (false, false));
  }

  lemma {:induction false} UntrackedAre(paths: seq<Path>, known: set<Path>)
    ensures forall p :: p in Untracked(paths, known) <==> p in paths && p !in known
  {
    if paths != [] {
      UntrackedAre(paths[1..], known);
      assert forall p :: p in paths <==> p == paths[0] || p in paths[1..];
    }
  }
}
