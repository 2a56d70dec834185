/** The part of the Conda locator that is shared by all request threads. */
module CondaLocator {
  import opened Basics
  import opened CondaCache

  datatype CachedPackageInfo = CachedPackageInfo(fingerprint: Fingerprint, info: Info)

  /** The entry's fingerprint held at that instant, and unless the history of that
      instant designates a package no fingerprint covers, the entry is its parse. */
  ghost predicate EntryFits(disk: Disk, parser: Parser, p: Path, entry: CachedPackageInfo, t: nat) {
    && Holds(entry.fingerprint, disk(t, p))
    && (HistoryCovered(parser, disk(t, p)) ==> Parse(parser, disk(t, p)) == Some(entry.info))
  }

  ghost predicate EntryFitsBy(disk: Disk, parser: Parser, p: Path, entry: CachedPackageInfo, now: nat) {
    exists t: nat :: t <= now && EntryFits(disk, parser, p, entry, t)
  }

  /** A fresh parse at some instant of the interval gives the value. */
  ghost predicate FreshDuring(disk: Disk, parser: Parser, p: Path, info: Info, from: nat, to: nat) {
    exists t: nat :: from <= t <= to && Parse(parser, disk(t, p)) == Some(info)
  }

  /** No history of the prefix designates an uncovered package meanwhile. */
  ghost predicate CoveredDuring(disk: Disk, parser: Parser, p: Path, from: nat, to: nat) {
    forall t: nat | from <= t <= to :: HistoryCovered(parser, disk(t, p))
  }

  /** A validated entry, found again by a collect, is what a parse would give at
      an instant of the call. */
  lemma HitIsFresh(disk: Disk, parser: Parser, p: Path, entry: CachedPackageInfo, from: nat, mid: nat, now: nat)
    requires NoStampReturns(disk) && mid <= now
    requires CollectedDuring(disk, p, entry.fingerprint, from, mid)
    requires EntryFitsBy(disk, parser, p, entry, now)
    ensures CoveredDuring(disk, parser, p, from, now) ==> FreshDuring(disk, parser, p, entry.info, from, now)
  {
    var t: nat :| t <= now && EntryFits(disk, parser, p, entry, t);
    if t <= from {
      OldFingerprintCollected(disk, p, entry.fingerprint, t, from, mid);
      CollectTakesTime(disk, p, entry.fingerprint, from, mid);
      if HistoryCovered(parser, disk(from, p)) {
        assert HistoryCovered(parser, disk(t, p));
        ParseCovered(parser, disk(t, p), disk(from, p));
      }
    }
  }

  /** What one collect of a directory that stands still finds. */
  lemma SteadyCollect(disk: Disk, p: Path, f: Fingerprint, from: nat, to: nat)
    requires CollectedDuring(disk, p, f, from, to)
    requires forall t: nat | from <= t <= to :: disk(t, p) == disk(to, p)
    ensures Holds(f, disk(to, p))
  {
    var h: nat, l: nat, d: nat :| from <= h && d <= to && Collected(disk, p, f, h, l, d);
    assert disk(l, p) == disk(to, p) && disk(h, p) == disk(to, p);
    forall name | name in RBaseNames(disk(to, p).Files())
      ensures name in f.packages && disk(to, p).Files()[name].stamp == f.packages[name]
    {
      assert SeenPackageDuring(disk, p, f, name, l, d);
      var t: nat :| l <= t <= d && SeenPackage(disk, p, f, name, t);
      assert disk(t, p) == disk(to, p);
    }
  }

  /** A directory has one fingerprint. */
  lemma FingerprintUnique(f: Fingerprint, g: Fingerprint, d: Directory)
    requires Holds(f, d) && Holds(g, d)
    ensures f == g
  {
    assert f.packages.Keys == g.packages.Keys;
    assert f.packages == g.packages;
  }

  lemma CollectTakesTime(disk: Disk, p: Path, f: Fingerprint, from: nat, to: nat)
    requires CollectedDuring(disk, p, f, from, to)
    ensures from <= to
  {
  }

  type PackageInfoCache = map<Path, CachedPackageInfo>

  ghost predicate EntriesFit(disk: Disk, parser: Parser, cache: PackageInfoCache, now: nat) {
    forall p | p in cache :: EntryFitsBy(disk, parser, p, cache[p], now)
  }

  lemma EntriesStillFit(disk: Disk, parser: Parser, cache: PackageInfoCache, now: nat, later: nat)
    requires EntriesFit(disk, parser, cache, now) && now <= later
    ensures EntriesFit(disk, parser, cache, later)
  {
    forall p | p in cache ensures EntryFitsBy(disk, parser, p, cache[p], later) {
      var t: nat :| t <= now && EntryFits(disk, parser, p, cache[p], t);
      assert t <= later;
    }
  }

  /** What a call for the prefix does to the cache it finds when the lock is granted:
      nothing, or it removes the prefix, or it enters a value validated since. */
  ghost predicate Leaves(disk: Disk, parser: Parser, p: Path, before: PackageInfoCache, lock: nat,
                         after: PackageInfoCache, done: nat) {
    && lock <= done
    && (after == before || after == before - {p} || Enters(disk, parser, p, before, lock, after))
  }

  ghost predicate Enters(disk: Disk, parser: Parser, p: Path, before: PackageInfoCache, lock: nat,
                         after: PackageInfoCache) {
    p in after && after == before[p := after[p]] && EntryFits(disk, parser, p, after[p], lock)
  }

  lemma LeavesFit(disk: Disk, parser: Parser, p: Path, before: PackageInfoCache, lock: nat,
                  after: PackageInfoCache, done: nat)
    requires EntriesFit(disk, parser, before, lock) && Leaves(disk, parser, p, before, lock, after, done)
    ensures EntriesFit(disk, parser, after, done)
  {
    EntriesStillFit(disk, parser, before, lock, done);
    if Enters(disk, parser, p, before, lock, after) {
      assert EntryFitsBy(disk, parser, p, after[p], done);
    }
  }

  // ----- All calls of the process -----

  /** A call as the shared cache sees it: from the grant of the lock to its release. */
  datatype Call = Call(p: Path, before: PackageInfoCache, lock: nat, after: PackageInfoCache, done: nat)

  /** The calls in the order in which the lock was granted to them, from the empty
      cache on; each finds what the one before it left. */
  ghost predicate InLockOrder(disk: Disk, parser: Parser, calls: seq<Call>) {
    && (forall i | 0 <= i < |calls| ::
          Leaves(disk, parser, calls[i].p, calls[i].before, calls[i].lock, calls[i].after, calls[i].done))
    && (forall i | 0 < i < |calls| ::
          calls[i].before == calls[i - 1].after && calls[i - 1].done <= calls[i].lock)
    && (calls != [] ==> calls[0].before == map[])
  }

  /** Every cache the lock was granted on holds nothing but validated entries. */
  lemma {:induction false} EveryGrantFits(disk: Disk, parser: Parser, calls: seq<Call>, i: nat)
    requires InLockOrder(disk, parser, calls) && i < |calls|
    ensures EntriesFit(disk, parser, calls[i].before, calls[i].lock)
    ensures EntriesFit(disk, parser, calls[i].after, calls[i].done)
  {
    var c := calls[i];
    if i > 0 {
      EveryGrantFits(disk, parser, calls, i - 1);
      EntriesStillFit(disk, parser, c.before, calls[i - 1].done, c.lock);
    }
    LeavesFit(disk, parser, c.p, c.before, c.lock, c.after, c.done);
  }

  /** `granted(t)` is what the other requests left in the shared cache when its lock
      is granted at `t`. Nothing is required of it: what `GetPackageInfo` does to it
      is stated for any cache, and `EveryGrantFits` concludes for all calls together
      that it fits. */
  class Conda {
    const disk: Disk
    const parser: Parser
    const granted: nat -> PackageInfoCache
    var now: nat
    var packageInfoCache: PackageInfoCache

    ghost predicate Valid()
      reads this
    {
      NoStampReturns(disk)
    }

    constructor (disk: Disk, parser: Parser, granted: nat -> PackageInfoCache)
      requires NoStampReturns(disk)
      ensures Valid() && packageInfoCache == map[]
      ensures this.disk == disk && this.parser == parser && this.granted == granted
    {
      this.disk, this.parser, this.granted := disk, parser, granted;
      now, packageInfoCache := 0, map[];
    }

    /** Time passes, and the writer goes on. */
    method Tick()
      modifies this`now
      ensures now >= old(now)
    {
      var pause: nat :| 0 <= pause;
      now := now + pause;
    }

    /** The writer leaves the prefix alone. */
    ghost predicate Steady(p: Path, from: nat, to: nat) {
      forall t: nat | from <= t <= to :: disk(t, p) == disk(to, p)
    }

    /** `CondaEnvironmentFingerprint::from_prefix`. */
    method ReadFingerprint(p: Path) returns (f: Option<Fingerprint>)
      modifies this`now
      ensures now >= old(now)
      ensures f.Some? ==> CollectedDuring(disk, p, f.value, old(now), now)
      ensures Steady(p, old(now), now) && disk(now, p).Present? ==> f.Some? && Holds(f.value, disk(now, p))
    {
      ghost var start := now;
      Tick();
      var history: Option<Stamp> := None;
      if HISTORY in disk(now, p).Files() {
        Tick();
        if HISTORY !in disk(now, p).Files() {
          assert !Steady(p, start, now);
          return None;
        }
        history := Some(disk(now, p).Files()[HISTORY].stamp);
      }
      ghost var h := now;

      Tick();
      ghost var l := now;
      if disk(now, p).Absent? { return None; }
      var names := RBaseNames(disk(now, p).files);
      var packages: map<Name, Stamp> := map[];
      var todo := names;
      while todo != {}
        invariant l <= now && todo <= names && packages.Keys <= names - todo
        invariant forall name | name in names - todo :: ReadBetween(p, packages, name, l, now)
      {
        var name :| name in todo;
        ghost var (seen, before) := (packages, now);
        Tick();
        if name in disk(now, p).Files() {
          packages := packages[name := disk(now, p).Files()[name].stamp];
        }
        todo := todo - {name};
        forall n | n in names - todo ensures ReadBetween(p, packages, n, l, now) {
          if n == name {
            assert ReadAt(p, packages, n, now);
          } else {
            assert ReadBetween(p, seen, n, l, before);
            var t: nat :| l <= t <= before && ReadAt(p, seen, n, t);
            assert ReadAt(p, packages, n, t);
          }
        }
      }

      Tick();
      if disk(now, p).Absent? { return None; }
      f := Some(Fingerprint(disk(now, p).stamp, history, packages));
      forall name | name in names ensures SeenPackageDuring(disk, p, f.value, name, l, now) {
        assert name in names - todo && ReadBetween(p, packages, name, l, now);
        var t: nat :| l <= t <= now && ReadAt(p, packages, name, t);
        assert SeenPackage(disk, p, f.value, name, t);
      }
      assert Collected(disk, p, f.value, h, l, now);
      if Steady(p, start, now) { SteadyCollect(disk, p, f.value, start, now); }
    }

    ghost predicate ReadAt(p: Path, packages: map<Name, Stamp>, name: Name, t: nat) {
      if name in packages then name in disk(t, p).Files() && disk(t, p).Files()[name].stamp == packages[name]
      else name !in disk(t, p).Files()
    }

    ghost predicate ReadBetween(p: Path, packages: map<Name, Stamp>, name: Name, from: nat, to: nat) {
      exists t: nat :: from <= t <= to && ReadAt(p, packages, name, t)
    }

    method ReadPackageFile(p: Path, name: Name, version: string) returns (r: Option<Info>)
      modifies this`now
      ensures now >= old(now) && r == ReadPackage(parser, disk(now, p), name, version)
    {
      Tick();
      r := ReadPackage(parser, disk(now, p), name, version);
    }

    /** The enumeration of the package files; `d` is what is covered meanwhile. */
    method ReadPackageFiles(p: Path, preferred: Option<string>, ghost d: Directory) returns (r: Option<Info>)
      modifies this`now
      ensures now >= old(now)
      ensures Still(p, d, old(now), now) ==> r == InfoFromPackages(parser, d, preferred)
    {
      Tick();
      ghost var listed := now;
      if disk(now, p).Absent? {
        assert !CoveredSame(d, disk(listed, p));
        return None;
      }
      var names := RBaseNames(disk(now, p).files);
      var chosen := Chosen(parser, names, preferred);
      ChosenIsListed(parser, names, preferred);
      if chosen.None? { return None; }
      var info := ReadPackageFile(p, chosen.value.1, chosen.value.0);
      r := info.Or(Some(Info(chosen.value.0, None)));
      assert Still(p, d, old(now), now) ==> CoveredSame(d, disk(listed, p)) && CoveredSame(d, disk(now, p));
    }

    /** What the fingerprint covers stays as it is in `d`. */
    ghost predicate Still(p: Path, d: Directory, from: nat, to: nat) {
      forall t: nat | from <= t <= to :: CoveredSame(d, disk(t, p))
    }

    /** `RCondaPackageInfo::from`: several reads, each at its own instant. */
    method ReadPackageInfo(p: Path, ghost d: Directory) returns (r: Option<Info>)
      modifies this`now
      ensures now >= old(now)
      ensures Still(p, d, old(now), now) && HistoryCovered(parser, d) ==> r == Parse(parser, d) && IsParse(parser, d, r)
    {
      ParseIs(parser, d, Parse(parser, d));
      hide IsParse;
      Tick();
      ghost var first := now;
      var designated := Designated(parser, disk(now, p));
      if designated.None? {
        r := ReadPackageFiles(p, None, d);
        assert Still(p, d, old(now), now) ==> CoveredSame(d, disk(first, p));
        return;
      }
      var (version, hash) := designated.value;
      r := ReadPackageFile(p, PackageName(version, hash), version);
      ghost var second := now;
      if r.None? {
        var fallback := ReadPackageFiles(p, Some(version), d);
        r := fallback.Or(Some(Info(version, None)));
      }
      if Still(p, d, old(now), now) && HistoryCovered(parser, d) {
        hide Parse, ReadPackage, InfoFromPackages;
        assert CoveredSame(d, disk(first, p)) && CoveredSame(d, disk(second, p));
        ReadsGiveParse(parser, d, disk(first, p), disk(second, p));
      }
    }

    /** What every call guarantees: whenever it leaves an entry for the prefix,
        the returned value is that entry's, and unless a history of the prefix
        designates an uncovered package during the call, it is what a parse gives
        at some instant inside the call. */
    ghost predicate Answers(p: Path, r: Option<Info>, from: nat, to: nat)
      reads this
    {
      p in packageInfoCache ==>
        && r == Some(packageInfoCache[p].info)
        && (CoveredDuring(disk, parser, p, from, to) ==>
              FreshDuring(disk, parser, p, packageInfoCache[p].info, from, to))
    }

    /** A call during which the prefix stands still, with a history that designates
        no uncovered package, returns its parse and leaves it cached. */
    ghost predicate AnswersSteady(p: Path, r: Option<Info>, from: nat, to: nat)
      reads this
    {
      Steady(p, from, to) && disk(to, p).Present? && HistoryCovered(parser, disk(to, p)) ==>
        r == Parse(parser, disk(to, p)) && (r.Some? <==> p in packageInfoCache)
    }

    method GetPackageInfo(p: Path) returns (r: Option<Info>, ghost lock: nat)
      requires Valid()
      modifies this
      ensures Valid() && old(now) <= lock <= now
      ensures Leaves(disk, parser, p, granted(lock), lock, packageInfoCache, now)
      ensures EntriesFit(disk, parser, granted(lock), lock) ==>
                Answers(p, r, old(now), now) && AnswersSteady(p, r, old(now), now)
    {
      ghost var start := now;
      var before := ReadFingerprint(p);
      ghost var mid := now;

      // the lock is granted
      Tick();
      lock := now;
      packageInfoCache := granted(now);
      if before.Some? && p in packageInfoCache && packageInfoCache[p].fingerprint == before.value {
        r := Some(packageInfoCache[p].info);
        if EntriesFit(disk, parser, granted(lock), lock) {
          HitIsFresh(disk, parser, p, packageInfoCache[p], start, mid, now);
        }
        return;
      }
      r := Refill(p, before, start, mid);
    }

    /** The parse and the second collect on a miss, under the lock. */
    method ParseAndValidate(p: Path, before: Option<Fingerprint>, ghost start: nat, ghost mid: nat)
        returns (r: Option<Info>, validated: Option<Fingerprint>)
      requires NoStampReturns(disk) && start <= mid <= now
      requires before.Some? ==> CollectedDuring(disk, p, before.value, start, mid)
      requires Steady(p, start, mid) && disk(mid, p).Present? ==> before.Some? && Holds(before.value, disk(mid, p))
      modifies this`now
      ensures now >= old(now)
      ensures validated.Some? ==>
                r.Some? && EntryFits(disk, parser, p, CachedPackageInfo(validated.value, r.value), old(now))
      ensures Steady(p, start, now) && disk(now, p).Present? && HistoryCovered(parser, disk(now, p)) ==>
                r == Parse(parser, disk(now, p)) && (r.Some? ==> validated.Some?)
    {
      ghost var lock := now;
      r := ReadPackageInfo(p, disk(lock, p));
      ghost var parsed := now;
      var after: Option<Fingerprint> := None;
      if r.Some? {
        after := ReadFingerprint(p);
      }
      SteadyRefill(p, r, before, after, start, mid, lock, parsed);
      if r.Some? && before.Some? && before == after {
        ValidatedParse(p, before.value, start, mid, lock, parsed);
        return r, after;
      }
      return r, None;
    }

    /** The rest of the call on a miss. */
    method Refill(p: Path, before: Option<Fingerprint>, ghost start: nat, ghost mid: nat) returns (r: Option<Info>)
      requires Valid() && packageInfoCache == granted(now) && start <= mid <= now
      requires before.Some? ==> CollectedDuring(disk, p, before.value, start, mid)
      requires Steady(p, start, mid) && disk(mid, p).Present? ==> before.Some? && Holds(before.value, disk(mid, p))
      modifies this
      ensures Leaves(disk, parser, p, granted(old(now)), old(now), packageInfoCache, now)
      ensures Answers(p, r, start, now) && AnswersSteady(p, r, start, now)
    {
      ghost var lock := now;
      var validated: Option<Fingerprint>;
      r, validated := ParseAndValidate(p, before, start, mid);
      if validated.Some? {
        packageInfoCache := packageInfoCache[p := CachedPackageInfo(validated.value, r.value)];
        FitsFresh(p, packageInfoCache[p], start, lock);
      } else {
        packageInfoCache := packageInfoCache - {p};
      }
    }

    /** What was validated under the lock is fresh, unless uncovered. */
    lemma FitsFresh(p: Path, entry: CachedPackageInfo, start: nat, lock: nat)
      requires start <= lock <= now && EntryFits(disk, parser, p, entry, lock)
      ensures CoveredDuring(disk, parser, p, start, now) ==> FreshDuring(disk, parser, p, entry.info, start, now)
    {
    }

    lemma SteadyRefill(p: Path, r: Option<Info>, before: Option<Fingerprint>, after: Option<Fingerprint>,
                       start: nat, mid: nat, lock: nat, parsed: nat)
      requires start <= mid <= lock <= parsed <= now
      requires Steady(p, start, mid) && disk(mid, p).Present? ==> before.Some? && Holds(before.value, disk(mid, p))
      requires Still(p, disk(lock, p), lock, parsed) && HistoryCovered(parser, disk(lock, p)) ==>
                 r == Parse(parser, disk(lock, p))
      requires r.Some? && Steady(p, parsed, now) && disk(now, p).Present? ==>
                 after.Some? && Holds(after.value, disk(now, p))
      ensures Steady(p, start, now) && disk(now, p).Present? && HistoryCovered(parser, disk(now, p)) ==>
                r == Parse(parser, disk(now, p)) && (r.Some? ==> before.Some? && before == after)
    {
      if Steady(p, start, now) && disk(now, p).Present? && HistoryCovered(parser, disk(now, p)) {
        assert disk(mid, p) == disk(now, p) && disk(lock, p) == disk(now, p);
        assert Steady(p, start, mid) && Steady(p, parsed, now);
        forall t: nat | lock <= t <= parsed ensures CoveredSame(disk(lock, p), disk(t, p)) {
          assert disk(t, p) == disk(now, p);
        }
        if r.Some? { FingerprintUnique(before.value, after.value, disk(now, p)); }
      }
    }

    /** Between two equal collects the parse saw one instant. */
    lemma ValidatedParse(p: Path, f: Fingerprint, start: nat, mid: nat, lock: nat, parsed: nat)
      requires NoStampReturns(disk) && mid <= lock <= parsed <= now
      requires CollectedDuring(disk, p, f, start, mid) && CollectedDuring(disk, p, f, parsed, now)
      ensures Holds(f, disk(lock, p)) && Still(p, disk(lock, p), lock, parsed)
    {
      DoubleCollect(disk, p, f, start, mid, parsed, now, lock);
      forall t: nat | lock <= t <= parsed ensures CoveredSame(disk(lock, p), disk(t, p)) {
        DoubleCollect(disk, p, f, start, mid, parsed, now, t);
        HeldThroughout(disk, p, f, lock, t);
      }
    }
  }
}
