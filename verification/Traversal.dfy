/** The recursive search for directories, over a file system with symbolic links. */
module Traversal {
  import opened Basics
  import opened Sorting

  type Name = string
  type Dir = nat   // a canonical directory

  /** `listing` is what reading the directory yields; `target` has the canonical
      directory behind each entry that is one, links included. */
  datatype Entries = Entries(listing: seq<Name>, target: map<Name, Dir>, isCondaEnv: bool, isPixiEnv: bool)

  type FileSystem = map<Dir, Entries>

  predicate Closed(fs: FileSystem) {
    forall d, name | d in fs && name in fs[d].target :: fs[d].target[name] in fs && name in fs[d].listing
  }

  const IGNORED: set<Name> := {
    "node_modules", ".cargo", ".devcontainer", ".github", ".git", ".cache", ".vscode", ".Rproj.user", "renv", "library"
  }

  predicate ShouldSearch(name: Name) {
    name !in IGNORED
  }

  /** The search goes from a directory through this entry. */
  predicate Follows(fs: FileSystem, d: Dir, name: Name) {
    d in fs && !fs[d].isCondaEnv && !fs[d].isPixiEnv && name in fs[d].target && ShouldSearch(name)
  }

  /** The canonical directory at the end of a chain of entries the search may
      follow, starting below `root`. */
  function Walk(fs: FileSystem, root: Dir, names: seq<Name>): Option<Dir> {
    if names == [] then Some(root)
    else
      var d := Walk(fs, root, names[..|names| - 1]);
      if d.Some? && Follows(fs, d.value, names[|names| - 1]) then Some(fs[d.value].target[names[|names| - 1]])
      else None
  }

  ghost predicate Reachable(fs: FileSystem, root: Dir, d: Dir) {
    exists names :: Walk(fs, root, names) == Some(d)
  }

  /** A path of the search: entries below the root directory. */
  type Path = seq<Name>

  lemma WalkStep(fs: FileSystem, root: Dir, names: seq<Name>, name: Name)
    ensures Walk(fs, root, names + [name]) ==
            var d := Walk(fs, root, names);
            if d.Some? && Follows(fs, d.value, name) then Some(fs[d.value].target[name]) else None
  {
    assert (names + [name])[..|names|] == names;
  }

  lemma {:induction false} WalkStaysInside(fs: FileSystem, root: Dir, names: seq<Name>)
    requires Closed(fs) && root in fs
    ensures Walk(fs, root, names).Some? ==> Walk(fs, root, names).value in fs
  {
    if names != [] { WalkStaysInside(fs, root, names[..|names| - 1]); }
  }

  // ----- The loop's invariant -----

  /** What is on the stack or in the output is reached by the search. */
  ghost predicate AllWalk(fs: FileSystem, root: Dir, paths: seq<Path>) {
    forall i | 0 <= i < |paths| :: Walk(fs, root, paths[i]).Some?
  }

  /** The output holds one path for each visited directory. */
  ghost predicate OnePathEach(fs: FileSystem, root: Dir, paths: seq<Path>, visited: set<Dir>) {
    && AllWalk(fs, root, paths)
    && (forall i | 0 <= i < |paths| :: Walk(fs, root, paths[i]).value in visited)
    && (forall i, j | 0 <= i < j < |paths| :: Walk(fs, root, paths[i]) != Walk(fs, root, paths[j]))
    && (forall d | d in visited :: exists i :: 0 <= i < |paths| && Walk(fs, root, paths[i]) == Some(d))
  }

  ghost predicate OnStack(fs: FileSystem, root: Dir, pending: seq<Path>, d: Dir) {
    exists i :: 0 <= i < |pending| && Walk(fs, root, pending[i]) == Some(d)
  }

  /** Where the search can go from a visited directory it has gone or will go. */
  ghost predicate Frontier(fs: FileSystem, root: Dir, visited: set<Dir>, pending: seq<Path>) {
    && (root in visited || OnStack(fs, root, pending, root))
    && forall d, name | d in visited && Follows(fs, d, name) ::
         fs[d].target[name] in visited || OnStack(fs, root, pending, fs[d].target[name])
  }

  /** With an empty stack the visited directories are closed, so they are all. */
  lemma {:induction false} ClosedIsAll(fs: FileSystem, root: Dir, visited: set<Dir>, names: seq<Name>)
    requires Frontier(fs, root, visited, [])
    ensures Walk(fs, root, names).Some? ==> Walk(fs, root, names).value in visited
  {
    if names != [] { ClosedIsAll(fs, root, visited, names[..|names| - 1]); }
  }

  /** Dropping a path whose directory is visited leaves the frontier intact. */
  lemma PoppedVisited(fs: FileSystem, root: Dir, visited: set<Dir>, pending: seq<Path>)
    requires pending != [] && Frontier(fs, root, visited, pending)
    requires Walk(fs, root, pending[|pending| - 1]).Some? ==> Walk(fs, root, pending[|pending| - 1]).value in visited
    ensures Frontier(fs, root, visited, pending[..|pending| - 1])
  {
    var rest := pending[..|pending| - 1];
    forall d: Dir | OnStack(fs, root, pending, d) && d !in visited ensures OnStack(fs, root, rest, d) {
      var i :| 0 <= i < |pending| && Walk(fs, root, pending[i]) == Some(d);
      assert rest[i] == pending[i];
    }
  }

  /** Visiting a directory and stacking all it leads to. */
  lemma VisitedFrontier(fs: FileSystem, root: Dir, visited: set<Dir>, rest: seq<Path>, path: Path, more: seq<Path>)
    requires Frontier(fs, root, visited, rest + [path])
    requires Walk(fs, root, path).Some?
    requires forall name | Follows(fs, Walk(fs, root, path).value, name) :: path + [name] in more
    ensures Frontier(fs, root, visited + {Walk(fs, root, path).value}, rest + more)
  {
    var here := Walk(fs, root, path).value;
    var after := rest + more;
    forall d: Dir | OnStack(fs, root, rest + [path], d) && d != here ensures OnStack(fs, root, after, d) {
      var i :| 0 <= i < |rest + [path]| && Walk(fs, root, (rest + [path])[i]) == Some(d);
      assert after[i] == rest[i];
    }
    forall name | Follows(fs, here, name) ensures OnStack(fs, root, after, fs[here].target[name]) {
      var i :| 0 <= i < |more| && more[i] == path + [name];
      WalkStep(fs, root, path, name);
      assert after[|rest| + i] == path + [name];
    }
  }

  lemma VisitedOutput(fs: FileSystem, root: Dir, paths: seq<Path>, visited: set<Dir>, path: Path)
    requires OnePathEach(fs, root, paths, visited)
    requires Walk(fs, root, path).Some? && Walk(fs, root, path).value !in visited
    ensures OnePathEach(fs, root, paths + [path], visited + {Walk(fs, root, path).value})
  {
    hide Walk;
    var here := Walk(fs, root, path).value;
    var after := paths + [path];
    forall d | d in visited + {here} ensures exists i :: 0 <= i < |after| && Walk(fs, root, after[i]) == Some(d) {
      if d == here {
        assert after[|paths|] == path;
      } else {
        var i :| 0 <= i < |paths| && Walk(fs, root, paths[i]) == Some(d);
        assert after[i] == paths[i];
      }
    }
  }

  // ----- The children of a directory, last first -----

  function Kept(target: map<Name, Dir>, listing: seq<Name>): seq<Name> {
    if listing == [] then []
    else (if listing[0] in target && ShouldSearch(listing[0]) then [listing[0]] else []) + Kept(target, listing[1..])
  }

  lemma {:induction false} KeptIs(target: map<Name, Dir>, listing: seq<Name>)
    ensures forall name :: name in Kept(target, listing) <==> name in listing && name in target && ShouldSearch(name)
  {
    if listing != [] {
      KeptIs(target, listing[1..]);
      assert listing == [listing[0]] + listing[1..];
    }
  }

  /** The stack entries for the children, in reverse of their sorted order. */
  function Stacked(path: Path, children: seq<Name>): (r: seq<Path>)
    ensures |r| == |children|
    ensures forall i | 0 <= i < |r| :: r[i] == path + [children[|children| - 1 - i]]
  {
    seq(|children|, i requires 0 <= i < |children| => path + [children[|children| - 1 - i]])
  }

  lemma StackedIs(path: Path, children: seq<Name>)
    ensures forall name | name in children :: path + [name] in Stacked(path, children)
    ensures forall p | p in Stacked(path, children) :: exists name :: name in children && p == path + [name]
  {
    forall name | name in children ensures path + [name] in Stacked(path, children) {
      var i :| 0 <= i < |children| && children[i] == name;
      assert Stacked(path, children)[|children| - 1 - i] == path + [name];
    }
  }

  lemma ChildrenOf(entries: Entries, path: Path)
    requires forall name | name in entries.target :: name in entries.listing
    ensures var stacked := Stacked(path, SortDedup(Kept(entries.target, entries.listing), LexLeq));
            && (forall name | name in entries.target && ShouldSearch(name) :: path + [name] in stacked)
            && (forall p | p in stacked ::
                  exists name :: name in entries.target && ShouldSearch(name) && p == path + [name])
  {
    var kept := Kept(entries.target, entries.listing);
    KeptIs(entries.target, entries.listing);
    LexOrder();
    SortDedupIncreasing(kept, LexLeq);
    var children := SortDedup(kept, LexLeq);
    assert forall name :: name in children <==> name in Elements(children);
    assert forall name :: name in kept <==> name in Elements(kept);
    StackedIs(path, children);
  }

  /** What visiting a directory pushes. */
  function ChildPaths(entries: Entries, path: Path): seq<Path> {
    if entries.isCondaEnv || entries.isPixiEnv then []
    else Stacked(path, SortDedup(Kept(entries.target, entries.listing), LexLeq))
  }

  lemma ChildPathsAre(fs: FileSystem, d: Dir, path: Path)
    requires Closed(fs) && d in fs
    ensures forall name | Follows(fs, d, name) :: path + [name] in ChildPaths(fs[d], path)
    ensures forall p | p in ChildPaths(fs[d], path) :: exists name :: Follows(fs, d, name) && p == path + [name]
  {
    if !fs[d].isCondaEnv && !fs[d].isPixiEnv {
      ChildrenOf(fs[d], path);
      forall p | p in ChildPaths(fs[d], path) ensures exists name :: Follows(fs, d, name) && p == path + [name] {
        assert p in Stacked(path, SortDedup(Kept(fs[d].target, fs[d].listing), LexLeq));
        var name :| name in fs[d].target && ShouldSearch(name) && p == path + [name];
        assert Follows(fs, d, name);
      }
    }
  }

  lemma AppendWalks(fs: FileSystem, root: Dir, rest: seq<Path>, path: Path, stacked: seq<Path>)
    requires AllWalk(fs, root, rest) && Walk(fs, root, path).Some?
    requires forall p | p in stacked ::
               exists name :: Follows(fs, Walk(fs, root, path).value, name) && p == path + [name]
    ensures AllWalk(fs, root, rest + stacked)
  {
    forall i | 0 <= i < |rest + stacked| ensures Walk(fs, root, (rest + stacked)[i]).Some? {
      if i >= |rest| {
        var p := stacked[i - |rest|];
        assert p in stacked;
        var name :| Follows(fs, Walk(fs, root, path).value, name) && p == path + [name];
        WalkStep(fs, root, path, name);
      }
    }
  }

  ghost predicate Searching(fs: FileSystem, root: Dir, paths: seq<Path>, visited: set<Dir>, pending: seq<Path>) {
    && AllWalk(fs, root, pending)
    && OnePathEach(fs, root, paths, visited)
    && Frontier(fs, root, visited, pending)
    && visited <= fs.Keys
  }

  lemma TopWalks(fs: FileSystem, root: Dir, paths: seq<Path>, visited: set<Dir>, rest: seq<Path>, path: Path)
    requires Closed(fs) && root in fs
    requires Searching(fs, root, paths, visited, rest + [path])
    ensures Walk(fs, root, path).Some? && Walk(fs, root, path).value in fs
    ensures Walk(fs, root, path).value !in visited ==>
              |fs.Keys - (visited + {Walk(fs, root, path).value})| < |fs.Keys - visited|
  {
    assert (rest + [path])[|rest|] == path;
    WalkStaysInside(fs, root, path);
    if Walk(fs, root, path).value !in visited { Shrinks(fs, visited, Walk(fs, root, path).value); }
  }

  lemma PopStep(fs: FileSystem, root: Dir, paths: seq<Path>, visited: set<Dir>, rest: seq<Path>, path: Path)
    requires Searching(fs, root, paths, visited, rest + [path])
    requires Walk(fs, root, path).Some? && Walk(fs, root, path).value in visited
    ensures Searching(fs, root, paths, visited, rest)
  {
    assert (rest + [path])[..|rest|] == rest;
    assert forall i | 0 <= i < |rest| :: (rest + [path])[i] == rest[i];
    PoppedVisited(fs, root, visited, rest + [path]);
  }

  lemma VisitStep(fs: FileSystem, root: Dir, paths: seq<Path>, visited: set<Dir>, rest: seq<Path>, path: Path,
                  stacked: seq<Path>)
    requires Searching(fs, root, paths, visited, rest + [path])
    requires Walk(fs, root, path).Some? && Walk(fs, root, path).value in fs && Walk(fs, root, path).value !in visited
    requires forall name | Follows(fs, Walk(fs, root, path).value, name) :: path + [name] in stacked
    requires forall p | p in stacked ::
               exists name :: Follows(fs, Walk(fs, root, path).value, name) && p == path + [name]
    ensures Searching(fs, root, paths + [path], visited + {Walk(fs, root, path).value}, rest + stacked)
  {
    assert forall i | 0 <= i < |rest| :: (rest + [path])[i] == rest[i];
    VisitedOutput(fs, root, paths, visited, path);
    VisitedFrontier(fs, root, visited, rest, path, stacked);
    AppendWalks(fs, root, rest, path, stacked);
  }

  // ----- The order of the output -----

  /** These are the names that the search follows from the directory, each once, in
      lexicographic order. */
  ghost predicate InOrder(fs: FileSystem, d: Dir, names: seq<Name>) {
    Increasing(names, LexLeq) && forall name :: name in names <==> Follows(fs, d, name)
  }

  lemma InOrderUnique(fs: FileSystem, d: Dir, a: seq<Name>, b: seq<Name>)
    requires InOrder(fs, d, a) && InOrder(fs, d, b)
    ensures a == b
  {
    LexOrder();
    assert forall name :: name in Elements(a) <==> name in a;
    assert forall name :: name in Elements(b) <==> name in b;
    IncreasingUnique(a, b, LexLeq);
  }

  /** What is pushed are the names in that order, turned round. */
  lemma ChildPathsInOrder(fs: FileSystem, d: Dir, path: Path) returns (names: seq<Name>)
    requires Closed(fs) && d in fs
    ensures InOrder(fs, d, names)
    ensures Reversed(ChildPaths(fs[d], path)) == Below(path, names)
  {
    if fs[d].isCondaEnv || fs[d].isPixiEnv {
      names := [];
    } else {
      var kept := Kept(fs[d].target, fs[d].listing);
      names := SortDedup(kept, LexLeq);
      KeptIs(fs[d].target, fs[d].listing);
      LexOrder();
      SortDedupIncreasing(kept, LexLeq);
      forall name ensures name in names <==> Follows(fs, d, name) {
        assert name in Elements(names) <==> name in names;
        assert name in Elements(kept) <==> name in kept;
      }
    }
  }

  lemma OrderExists(fs: FileSystem, d: Dir)
    requires Closed(fs) && d in fs
    ensures exists names :: InOrder(fs, d, names)
  {
    var names := ChildPathsInOrder(fs, d, []);
  }

  ghost function NamesInOrder(fs: FileSystem, d: Dir): (names: seq<Name>)
    requires Closed(fs) && d in fs
    ensures InOrder(fs, d, names)
  {
    OrderExists(fs, d);
    var names :| InOrder(fs, d, names);
    names
  }

  function Below(path: Path, names: seq<Name>): (r: seq<Path>)
    ensures |r| == |names| && forall i | 0 <= i < |r| :: r[i] == path + [names[i]]
  {
    seq(|names|, i requires 0 <= i < |names| => path + [names[i]])
  }

  /** The children in the order of their names. */
  ghost function ChildrenInOrder(fs: FileSystem, d: Dir, path: Path): seq<Path>
    requires Closed(fs) && d in fs
  {
    Below(path, NamesInOrder(fs, d))
  }

  lemma PushedInOrder(fs: FileSystem, d: Dir, path: Path)
    requires Closed(fs) && d in fs
    ensures Reversed(ChildPaths(fs[d], path)) == ChildrenInOrder(fs, d, path)
  {
    var names := ChildPathsInOrder(fs, d, path);
    InOrderUnique(fs, d, names, NamesInOrder(fs, d));
  }

  /** The recursive form of the search: a directory, then all that is found below it,
      child by child in the order of their names, then what comes after it. */
  ghost function Explore(fs: FileSystem, root: Dir, todo: seq<Path>, visited: set<Dir>): (r: (seq<Path>, set<Dir>))
    requires Closed(fs) && root in fs && visited <= fs.Keys
    ensures visited <= r.1 <= fs.Keys
    decreases |fs.Keys - visited|, |todo|
  {
    if todo == [] then ([], visited)
    else
      var d := Walk(fs, root, todo[0]);
      WalkStaysInside(fs, root, todo[0]);
      if d.None? || d.value in visited then Explore(fs, root, todo[1..], visited)
      else
        Shrinks(fs, visited, d.value);
        var below := Explore(fs, root, ChildrenInOrder(fs, d.value, todo[0]), visited + {d.value});
        FewerLeft(fs, visited + {d.value}, below.1);
        var after := Explore(fs, root, todo[1..], below.1);
        ([todo[0]] + below.0 + after.0, after.1)
  }

  lemma FewerLeft(fs: FileSystem, visited: set<Dir>, more: set<Dir>)
    requires visited <= more
    ensures |fs.Keys - more| <= |fs.Keys - visited|
  {
    assert fs.Keys - more <= fs.Keys - visited;
    SubsetSize(fs.Keys - more, fs.Keys - visited);
  }

  lemma {:induction false} SubsetSize(a: set<Dir>, b: set<Dir>)
    requires a <= b
    ensures |a| <= |b|
  {
    assert b == a + (b - a);
  }

  lemma ExploreNone(fs: FileSystem, root: Dir, visited: set<Dir>)
    requires Closed(fs) && root in fs && visited <= fs.Keys
    ensures Explore(fs, root, [], visited) == ([], visited)
  {
  }

  /** One path of the list. */
  lemma ExploreFirst(fs: FileSystem, root: Dir, p: Path, rest: seq<Path>, visited: set<Dir>)
    requires Closed(fs) && root in fs && visited <= fs.Keys
    ensures Walk(fs, root, p).Some? ==> Walk(fs, root, p).value in fs
    ensures var d := Walk(fs, root, p);
            Explore(fs, root, [p] + rest, visited) ==
            if d.None? || d.value in visited then Explore(fs, root, rest, visited)
            else
              var below := Explore(fs, root, ChildrenInOrder(fs, d.value, p), visited + {d.value});
              var after := Explore(fs, root, rest, below.1);
              ([p] + below.0 + after.0, after.1)
  {
    WalkStaysInside(fs, root, p);
    assert ([p] + rest)[1..] == rest;
  }

  /** Exploring two lists is exploring the first and then, with what that visited,
      the second. */
  lemma {:induction false} ExploreAppend(fs: FileSystem, root: Dir, a: seq<Path>, b: seq<Path>, visited: set<Dir>)
    requires Closed(fs) && root in fs && visited <= fs.Keys
    ensures var first := Explore(fs, root, a, visited);
            var second := Explore(fs, root, b, first.1);
            Explore(fs, root, a + b, visited) == (first.0 + second.0, second.1)
    decreases |fs.Keys - visited|, |a|
  {
    hide Explore, Walk, ChildrenInOrder;
    if a == [] {
      assert a + b == b;
      ExploreNone(fs, root, visited);
      assert [] + Explore(fs, root, b, visited).0 == Explore(fs, root, b, visited).0;
    } else {
      var (p, rest) := (a[0], a[1..]);
      assert a + b == [p] + (rest + b) && a == [p] + rest;
      ExploreFirst(fs, root, p, rest, visited);
      ExploreFirst(fs, root, p, rest + b, visited);
      var d := Walk(fs, root, p);
      if d.None? || d.value in visited {
        ExploreAppend(fs, root, rest, b, visited);
      } else {
        Shrinks(fs, visited, d.value);
        var below := Explore(fs, root, ChildrenInOrder(fs, d.value, p), visited + {d.value});
        FewerLeft(fs, visited + {d.value}, below.1);
        ExploreAppend(fs, root, rest, b, below.1);
        var after := Explore(fs, root, rest, below.1);
        assert [p] + below.0 + (after.0 + Explore(fs, root, b, after.1).0)
            == [p] + below.0 + after.0 + Explore(fs, root, b, after.1).0;
      }
    }
  }

  function Reversed(pending: seq<Path>): seq<Path> {
    seq(|pending|, i requires 0 <= i < |pending| => pending[|pending| - 1 - i])
  }

  // ----- The output is sorted -----

  /** The two paths part at some component, where the first has the smaller name. */
  predicate Before(a: Path, b: Path) {
    && a != [] && b != []
    && if a[0] == b[0] then Before(a[1..], b[1..]) else LexLeq(a[0], b[0])
  }

  lemma {:induction false} BeforeBelow(a: Path, b: Path, x: Path, y: Path)
    requires Before(a, b)
    ensures PathLeq(a + x, b + y) && a + x != b + y
  {
    if a[0] == b[0] {
      BeforeBelow(a[1..], b[1..], x, y);
      assert (a + x)[1..] == a[1..] + x && (b + y)[1..] == b[1..] + y;
    } else {
      assert (a + x)[0] != (b + y)[0];
    }
  }

  lemma {:induction false} PrefixFirst(a: Path, x: Path)
    ensures PathLeq(a, a + x)
  {
    if a != [] {
      PrefixFirst(a[1..], x);
      assert (a + x)[1..] == a[1..] + x;
    }
  }

  lemma {:induction false} SiblingsBefore(path: Path, a: Name, b: Name)
    requires LexLeq(a, b) && a != b
    ensures Before(path + [a], path + [b])
  {
    if path != [] {
      SiblingsBefore(path[1..], a, b);
      assert (path + [a])[1..] == path[1..] + [a] && (path + [b])[1..] == path[1..] + [b];
    }
  }

  ghost predicate InTurn(todo: seq<Path>) {
    forall i, j | 0 <= i < j < |todo| :: Before(todo[i], todo[j])
  }

  /** The path is one of the list or lies below one. */
  ghost predicate Under(todo: seq<Path>, p: Path) {
    exists i :: 0 <= i < |todo| && todo[i] <= p
  }

  lemma ChildrenInTurn(fs: FileSystem, d: Dir, path: Path)
    requires Closed(fs) && d in fs
    ensures InTurn(ChildrenInOrder(fs, d, path))
    ensures forall p | Under(ChildrenInOrder(fs, d, path), p) :: path < p
  {
    var (names, children) := (NamesInOrder(fs, d), ChildrenInOrder(fs, d, path));
    forall i, j | 0 <= i < j < |children| ensures Before(children[i], children[j]) {
      SiblingsBefore(path, names[i], names[j]);
    }
  }

  lemma UnderRest(todo: seq<Path>, p: Path)
    requires todo != [] && Under(todo[1..], p)
    ensures Under(todo, p)
  {
    var i :| 0 <= i < |todo[1..]| && todo[1..][i] <= p;
    assert todo[i + 1] <= p;
  }

  /** Whatever lies below the first comes before whatever lies below the others. */
  lemma FirstBeforeOthers(todo: seq<Path>, p: Path, q: Path)
    requires InTurn(todo) && todo != [] && todo[0] <= p && Under(todo[1..], q)
    ensures PathLeq(p, q) && p != q
  {
    var i :| 0 <= i < |todo[1..]| && todo[1..][i] <= q;
    var b := todo[i + 1];
    assert Before(todo[0], b);
    BeforeBelow(todo[0], b, p[|todo[0]|..], q[|b|..]);
    assert p == todo[0] + p[|todo[0]|..] && q == b + q[|b|..];
  }

  lemma JoinedIncreasing(first: Path, below: seq<Path>, after: seq<Path>)
    requires Increasing(below, PathLeq) && Increasing(after, PathLeq)
    requires forall p | p in below :: first < p
    requires forall p, q | (p == first || p in below) && q in after :: PathLeq(p, q) && p != q
    ensures Increasing([first] + below + after, PathLeq)
  {
    forall p | p in below ensures PathLeq(first, p) && first != p {
      PrefixFirst(first, p[|first|..]);
      assert p == first + p[|first|..];
    }
    var all := [first] + below + after;
    forall i, j | 0 <= i < j < |all| ensures PathLeq(all[i], all[j]) && all[i] != all[j] {
      if j > |below| {
        assert all[j] == after[j - 1 - |below|];
        if i > |below| { assert all[i] == after[i - 1 - |below|]; }
      } else {
        assert all[j] == below[j - 1];
        if i > 0 { assert all[i] == below[i - 1]; }
      }
    }
  }

  /** The recursive search gives the paths in strictly increasing order, each below
      one of the list. */
  lemma {:induction false} ExploreIncreasing(fs: FileSystem, root: Dir, todo: seq<Path>, visited: set<Dir>)
    requires Closed(fs) && root in fs && visited <= fs.Keys && InTurn(todo)
    ensures Increasing(Explore(fs, root, todo, visited).0, PathLeq)
    ensures forall p | p in Explore(fs, root, todo, visited).0 :: Under(todo, p)
    decreases |fs.Keys - visited|, |todo|
  {
    hide Walk, ChildrenInOrder, Increasing;
    if todo == [] {
      EmptyIncreasing();
    } else {
      var (first, rest) := (todo[0], todo[1..]);
      WalkStaysInside(fs, root, first);
      var d := Walk(fs, root, first);
      if d.None? || d.value in visited {
        ExploreIncreasing(fs, root, rest, visited);
        forall p | Under(rest, p) ensures Under(todo, p) { UnderRest(todo, p); }
      } else {
        Shrinks(fs, visited, d.value);
        var children := ChildrenInOrder(fs, d.value, first);
        var below := Explore(fs, root, children, visited + {d.value});
        FewerLeft(fs, visited + {d.value}, below.1);
        ChildrenInTurn(fs, d.value, first);
        ExploreIncreasing(fs, root, children, visited + {d.value});
        ExploreIncreasing(fs, root, rest, below.1);
        var after := Explore(fs, root, rest, below.1);
        forall p, q | (p == first || p in below.0) && q in after.0 ensures PathLeq(p, q) && p != q {
          FirstBeforeOthers(todo, p, q);
        }
        JoinedIncreasing(first, below.0, after.0);
        forall p | p in [first] + below.0 + after.0 ensures Under(todo, p) {
          if p in after.0 {
            UnderRest(todo, p);
          } else {
            assert todo[0] <= p;
          }
        }
      }
    }
  }

  lemma EmptyIncreasing()
    ensures Increasing([], PathLeq)
  {
  }

  /** What the search finds from its stack, whose top is at the end. */
  ghost function Rest(fs: FileSystem, root: Dir, pending: seq<Path>, visited: set<Dir>): seq<Path>
    requires Closed(fs) && root in fs && visited <= fs.Keys
  {
    Explore(fs, root, Reversed(pending), visited).0
  }

  /** Popping a path and stacking its children explores the children first. */
  lemma PoppedRest(fs: FileSystem, root: Dir, rest: seq<Path>, path: Path, visited: set<Dir>)
    requires Closed(fs) && root in fs && visited <= fs.Keys
    requires Walk(fs, root, path).Some? && Walk(fs, root, path).value in fs
    ensures var d := Walk(fs, root, path).value;
            Rest(fs, root, rest + [path], visited) ==
            if d in visited then Rest(fs, root, rest, visited)
            else [path] + Rest(fs, root, rest + ChildPaths(fs[d], path), visited + {d})
  {
    hide Explore, Walk;
    var d := Walk(fs, root, path).value;
    assert Reversed(rest + [path]) == [path] + Reversed(rest);
    ExploreFirst(fs, root, path, Reversed(rest), visited);
    if d !in visited {
      var children := ChildPaths(fs[d], path);
      PushedInOrder(fs, d, path);
      assert Reversed(rest + children) == Reversed(children) + Reversed(rest);
      assert Reversed(rest + children) == ChildrenInOrder(fs, d, path) + Reversed(rest);
      ExploreAppend(fs, root, ChildrenInOrder(fs, d, path), Reversed(rest), visited + {d});
      var below := Explore(fs, root, ChildrenInOrder(fs, d, path), visited + {d});
      assert [path] + below.0 + Explore(fs, root, Reversed(rest), below.1).0
          == [path] + (below.0 + Explore(fs, root, Reversed(rest), below.1).0);
    }
  }

  ghost predicate Found(fs: FileSystem, root: Dir, paths: seq<Path>, d: Dir) {
    exists i :: 0 <= i < |paths| && Walk(fs, root, paths[i]) == Some(d)
  }

  ghost predicate AllDifferent(fs: FileSystem, root: Dir, paths: seq<Path>) {
    forall i, j | 0 <= i < j < |paths| :: Walk(fs, root, paths[i]) != Walk(fs, root, paths[j])
  }

  lemma SearchStarts(fs: FileSystem, root: Dir)
    requires root in fs
    ensures Searching(fs, root, [], {}, [[]])
  {
    assert Walk(fs, root, [[]][0]) == Some(root);
  }

  lemma SearchDone(fs: FileSystem, root: Dir, paths: seq<Path>, visited: set<Dir>)
    requires Searching(fs, root, paths, visited, [])
    ensures AllWalk(fs, root, paths) && AllDifferent(fs, root, paths)
    ensures forall d: Dir :: Reachable(fs, root, d) <==> Found(fs, root, paths, d)
  {
    forall d: Dir ensures Reachable(fs, root, d) <==> Found(fs, root, paths, d) {
      if Reachable(fs, root, d) {
        var names :| Walk(fs, root, names) == Some(d);
        ClosedIsAll(fs, root, visited, names);
      }
    }
  }

  /** The paths name each directory the search can reach exactly once, in strictly
      increasing order of their components, and are those of the recursive search.
      `root` is the canonical form of the given directory, `None` when there is none. */
  method CollectRecursiveSearchPaths(fs: FileSystem, root: Option<Dir>) returns (paths: seq<Path>)
    requires Closed(fs) && (root.Some? ==> root.value in fs)
    ensures root.None? ==> paths == []
    ensures root.Some? ==> AllWalk(fs, root.value, paths) && AllDifferent(fs, root.value, paths)
    ensures root.Some? ==> forall d: Dir :: Reachable(fs, root.value, d) <==> Found(fs, root.value, paths, d)
    ensures root.Some? ==> paths == Explore(fs, root.value, [[]], {}).0
    ensures Increasing(paths, PathLeq)
  {
    hide Explore, Rest, Searching, Walk, ChildPaths, AllDifferent, AllWalk, Found, Reachable;
    paths := [];
    if root.None? {
      // the only pending path cannot be canonicalised
      return;
    }
    var pending: seq<Path> := [[]];
    var visited: set<Dir> := {};
    ghost var r := root.value;
    SearchStarts(fs, r);
    RestAtStart(fs, r);
    while pending != []
      invariant visited <= fs.Keys && Searching(fs, r, paths, visited, pending)
      invariant Explore(fs, r, [[]], {}).0 == paths + Rest(fs, r, pending, visited)
      decreases |fs.Keys - visited|, |pending|
    {
      var directory := pending[|pending| - 1];
      assert pending == pending[..|pending| - 1] + [directory];
      pending := pending[..|pending| - 1];
      TopWalks(fs, r, paths, visited, pending, directory);
      PoppedRest(fs, r, pending, directory, visited);
      var canonical := Walk(fs, root.value, directory);
      if canonical.value in visited {
        PopStep(fs, r, paths, visited, pending, directory);
        continue;
      }
      var here := canonical.value;
      ChildPathsAre(fs, here, directory);
      VisitStep(fs, r, paths, visited, pending, directory, ChildPaths(fs[here], directory));
      visited := visited + {here};
      paths := paths + [directory];
      pending := pending + ChildPaths(fs[here], directory);
    }
    SearchDone(fs, r, paths, visited);
    RestAtEnd(fs, r, visited);
    ExploreIncreasing(fs, r, [[]], {});
  }

  lemma RestAtStart(fs: FileSystem, root: Dir)
    requires Closed(fs) && root in fs
    ensures Rest(fs, root, [[]], {}) == Explore(fs, root, [[]], {}).0
  {
    assert Reversed([[]]) == [[]];
  }

  lemma RestAtEnd(fs: FileSystem, root: Dir, visited: set<Dir>)
    requires Closed(fs) && root in fs && visited <= fs.Keys
    ensures Rest(fs, root, [], visited) == []
  {
  }

  lemma Shrinks(fs: FileSystem, visited: set<Dir>, d: Dir)
    requires d in fs && d !in visited
    ensures |fs.Keys - (visited + {d})| < |fs.Keys - visited|
  {
    assert fs.Keys - visited == (fs.Keys - (visited + {d})) + {d};
  }
}
