/**
 * The project scanner: walks each configured root, reports every directory that
 * holds a marker file or directory and is not inside a project already reported
 * for that root, merges the per-root lists keeping the first entry for each path,
 * and sorts the result by lower-cased name. Also the query filter over a project list.
 */
module Scanner {
  import opened Wrappers
  import opened Paths
  import opened Text
  import opened Collections
  import Config

  /** A detected project: its path (the identity), its display name and the marker found in it. */
  datatype Project = Project(path: Path, name: string, marker: string)

  /** The scanner's settings: marker names, excluded directory names and the walk's depth bound. */
  datatype Scanner = Scanner(markers: set<string>, excludeDirs: set<string>, maxDepth: nat)

  /**
   * What the scanner asks of the outside world: which paths exist (`Path::exists`),
   * which are directories (`Path::is_dir`), and what the ignore-aware walker yields
   * for a root and a depth bound (files and directories, in walk order, read errors dropped).
   */
  datatype FileSystem = FileSystem(existing: set<Path>, dirs: set<Path>, walk: (Path, nat) -> seq<Path>)

  function PathsOf(ps: seq<Project>): (r: seq<Path>)
    ensures |r| == |ps| && forall i :: 0 <= i < |ps| ==> r[i] == ps[i].path
  {
    seq(|ps|, i requires 0 <= i < |ps| => ps[i].path)
  }

  function PathSet(ps: seq<Project>): set<Path> {
    set p | p in ps :: p.path
  }

  // ---------------------------------------------------------------------------
  // Settings

  /** `Scanner::from_config`: the configured lists become sets, the depth bound is copied. */
  function FromConfig(config: Config.Config): (sc: Scanner)
    reads config
    ensures forall m :: m in sc.markers <==> m in config.projectMarkers
    ensures forall d :: d in sc.excludeDirs <==> d in config.excludeDirs
    ensures sc.maxDepth == config.maxDepth
  {
    Scanner(Elems(config.projectMarkers), Elems(config.excludeDirs), config.maxDepth)
  }

  // ---------------------------------------------------------------------------
  // Classification of one directory

  /** The project name for a path: its last component, or "unknown" for the root. */
  function NameOf(path: Path): string {
    match FileName(path)
    case Some(n) => n
    case None => "unknown"
  }

  /** The directory's own name is one of the excluded names. */
  predicate IsExcluded(sc: Scanner, path: Path) {
    FileName(path).Some? && FileName(path).value in sc.excludeDirs
  }

  /** Some configured marker exists inside `dir`. */
  predicate HasMarker(sc: Scanner, fs: FileSystem, dir: Path) {
    exists m :: m in sc.markers && Join(dir, m) in fs.existing
  }

  /** Some strict ancestor of `path` (its parent, grandparent, ... up to `/`) is in `visited`. */
  predicate UnderProject(visited: set<Path>, path: Path) {
    exists k :: 0 <= k < |path| && path[..k] in visited
  }

  /** A walked entry that would be reported if it were not inside an earlier project. */
  predicate Qualifies(sc: Scanner, fs: FileSystem, d: Path) {
    d in fs.dirs && !IsExcluded(sc, d) && HasMarker(sc, fs, d)
  }

  /** What every reported project satisfies, whichever marker was picked. */
  predicate Detected(sc: Scanner, fs: FileSystem, p: Project) {
    && p.path in fs.dirs
    && !IsExcluded(sc, p.path)
    && p.name == NameOf(p.path)
    && p.marker in sc.markers
    && Join(p.path, p.marker) in fs.existing
  }

  predicate AllDetected(sc: Scanner, fs: FileSystem, ps: seq<Project>) {
    forall i :: 0 <= i < |ps| ==> Detected(sc, fs, ps[i])
  }

  lemma UnderProjectMeans(visited: set<Path>, path: Path)
    ensures UnderProject(visited, path) <==> exists a :: a in visited && IsStrictAncestor(a, path)
  {
    if a :| a in visited && IsStrictAncestor(a, path) {
      assert path[..|a|] in visited;
    }
  }

  /**
   * `detect_marker`: tries the markers in the set's iteration order, which is
   * unspecified, and returns the first one that exists inside `dir`.
   */
  method DetectMarker(sc: Scanner, fs: FileSystem, dir: Path) returns (r: Option<string>)
    ensures r.Some? ==> r.value in sc.markers && Join(dir, r.value) in fs.existing
    ensures r.None? <==> !HasMarker(sc, fs, dir)
  {
    var pending := sc.markers;
    while pending != {}
      invariant pending <= sc.markers
      invariant forall m :: m in sc.markers && m !in pending ==> Join(dir, m) !in fs.existing
      decreases |pending|
    {
      var m :| m in pending;
      if Join(dir, m) in fs.existing {
        return Some(m);
      }
      pending := pending - {m};
    }
    return None;
  }

  /** `is_under_project`: climbs from the parent of `path` to `/`, looking each ancestor up in `visited`. */
  method IsUnderProject(visited: set<Path>, path: Path) returns (b: bool)
    ensures b <==> UnderProject(visited, path)
  {
    var current := Parent(path);
    while current.Some?
      invariant current.Some? ==> |current.value| < |path| && current.value == path[..|current.value|]
      invariant forall k :: (if current.Some? then |current.value| else -1) < k < |path| ==> path[..k] !in visited
      decreases if current.Some? then |current.value| + 1 else 0
    {
      if current.value in visited {
        return true;
      }
      current := Parent(current.value);
    }
    return false;
  }

  // ---------------------------------------------------------------------------
  // One root

  /**
   * The paths reported for a walk, in walk order: each walked entry is kept when it
   * qualifies and no strict ancestor of it was kept earlier in the walk.
   */
  function Report(sc: Scanner, fs: FileSystem, walk: seq<Path>): seq<Path>
    decreases |walk|
  {
    if walk == [] then []
    else
      var prior := Report(sc, fs, walk[..|walk| - 1]);
      var d := walk[|walk| - 1];
      if Qualifies(sc, fs, d) && !UnderProject(Elems(prior), d) then prior + [d] else prior
  }

  /** The paths reported for a root: none when the root does not exist. */
  function RootReport(sc: Scanner, fs: FileSystem, root: Path): seq<Path> {
    if root !in fs.existing then [] else Report(sc, fs, fs.walk(root, sc.maxDepth))
  }

  /** `scan_root`: one pass over the walk with a root-local set of reported directories. */
  method ScanRoot(sc: Scanner, fs: FileSystem, root: Path) returns (projects: seq<Project>)
    ensures root !in fs.existing ==> projects == []
    ensures PathsOf(projects) == RootReport(sc, fs, root)
    ensures AllDetected(sc, fs, projects)
  {
    if root !in fs.existing {
      return [];
    }
    var walk := fs.walk(root, sc.maxDepth);
    projects := [];
    var visited: set<Path> := {};
    for i := 0 to |walk|
      invariant PathsOf(projects) == Report(sc, fs, walk[..i])
      invariant visited == Elems(PathsOf(projects))
      invariant AllDetected(sc, fs, projects)
    {
      var path := walk[i];
      ReportStep(sc, fs, walk, i);
      if path !in fs.dirs {
        continue;
      }
      var name := FileName(path);
      if name.Some? && name.value in sc.excludeDirs {
        continue;
      }
      var under := IsUnderProject(visited, path);
      if under {
        continue;
      }
      var marker := DetectMarker(sc, fs, path);
      if marker.Some? {
        var p := Project(path, NameOf(path), marker.value);
        AppendDetected(sc, fs, projects, p);
        projects := projects + [p];
        visited := visited + {path};
      }
    }
    assert walk[..|walk|] == walk;
  }

  /** Appending a detected project extends the paths by its path and keeps every project detected. */
  lemma AppendDetected(sc: Scanner, fs: FileSystem, projects: seq<Project>, p: Project)
    requires AllDetected(sc, fs, projects) && Detected(sc, fs, p)
    ensures PathsOf(projects + [p]) == PathsOf(projects) + [p.path]
    ensures Elems(PathsOf(projects + [p])) == Elems(PathsOf(projects)) + {p.path}
    ensures AllDetected(sc, fs, projects + [p])
  {
    assert PathsOf(projects + [p]) == PathsOf(projects) + [p.path];
  }

  // ---------------------------------------------------------------------------
  // Properties of one root's report

  /** The defining step of `Report`, for a walk extended by one entry. */
  lemma ReportSnoc(sc: Scanner, fs: FileSystem, walk: seq<Path>, d: Path)
    ensures Report(sc, fs, walk + [d]) ==
      if Qualifies(sc, fs, d) && !UnderProject(Elems(Report(sc, fs, walk)), d)
      then Report(sc, fs, walk) + [d] else Report(sc, fs, walk)
  {
    assert (walk + [d])[..|walk|] == walk;
  }

  /** The defining step of `Report`, for the prefixes of one walk. */
  lemma ReportStep(sc: Scanner, fs: FileSystem, walk: seq<Path>, i: nat)
    requires i < |walk|
    ensures Report(sc, fs, walk[..i + 1]) ==
      if Qualifies(sc, fs, walk[i]) && !UnderProject(Elems(Report(sc, fs, walk[..i])), walk[i])
      then Report(sc, fs, walk[..i]) + [walk[i]] else Report(sc, fs, walk[..i])
  {
    assert walk[..i + 1] == walk[..i] + [walk[i]];
    ReportSnoc(sc, fs, walk[..i], walk[i]);
  }

  /** Everything reported was walked and qualifies: a directory, not excluded, holding a marker. */
  lemma {:induction false} ReportSound(sc: Scanner, fs: FileSystem, walk: seq<Path>)
    ensures forall d :: d in Report(sc, fs, walk) ==> d in walk && Qualifies(sc, fs, d)
    decreases |walk|
  {
    if walk != [] {
      var init := walk[..|walk| - 1];
      ReportSound(sc, fs, init);
      assert forall d :: d in init ==> d in walk;
    }
  }

  /** The report for a prefix of the walk is a prefix of the report for the whole walk. */
  lemma {:induction false} ReportPrefix(sc: Scanner, fs: FileSystem, walk: seq<Path>, i: nat)
    requires i <= |walk|
    ensures Report(sc, fs, walk[..i]) <= Report(sc, fs, walk)
    decreases |walk|
  {
    if i == |walk| {
      assert walk[..i] == walk;
    } else {
      var init := walk[..|walk| - 1];
      assert walk[..i] == init[..i];
      ReportPrefix(sc, fs, init, i);
    }
  }

  /** Nested suppression: no reported directory lies inside one reported before it. */
  lemma {:induction false} ReportNotInsideEarlier(sc: Scanner, fs: FileSystem, walk: seq<Path>)
    ensures forall i, j :: 0 <= i < j < |Report(sc, fs, walk)| ==>
                !IsStrictAncestor(Report(sc, fs, walk)[i], Report(sc, fs, walk)[j])
    decreases |walk|
  {
    if walk != [] {
      var init := walk[..|walk| - 1];
      var prior, d := Report(sc, fs, init), walk[|walk| - 1];
      ReportNotInsideEarlier(sc, fs, init);
      UnderProjectMeans(Elems(prior), d);
    }
  }

  /** The walker's order: an entry comes after all of its walked ancestors. */
  predicate ParentsFirst(walk: seq<Path>) {
    forall i, j :: 0 <= i < |walk| && 0 <= j < |walk| && IsStrictAncestor(walk[i], walk[j]) ==> i < j
  }

  /** Dropping the last entry of a walk keeps ancestors before descendants. */
  lemma ParentsFirstInit(walk: seq<Path>)
    requires walk != [] && ParentsFirst(walk)
    ensures ParentsFirst(walk[..|walk| - 1])
  {
    var init := walk[..|walk| - 1];
    forall i, j | 0 <= i < |init| && 0 <= j < |init| && IsStrictAncestor(init[i], init[j])
      ensures i < j
    {
      assert init[i] == walk[i] && init[j] == walk[j];
    }
  }

  /** With ancestors walked first, no two directories reported for one root are nested at all. */
  lemma {:induction false} ReportNoNesting(sc: Scanner, fs: FileSystem, walk: seq<Path>)
    requires ParentsFirst(walk)
    ensures forall a, b :: a in Report(sc, fs, walk) && b in Report(sc, fs, walk) ==> !IsStrictAncestor(a, b)
    decreases |walk|
  {
    if walk != [] {
      var n := |walk| - 1;
      var init := walk[..n];
      var prior, d := Report(sc, fs, init), walk[n];
      assert walk == init + [d];
      ParentsFirstInit(walk);
      ReportNoNesting(sc, fs, init);
      ReportSnoc(sc, fs, init, d);
      if Qualifies(sc, fs, d) && !UnderProject(Elems(prior), d) {
        ReportSound(sc, fs, init);
        UnderProjectMeans(Elems(prior), d);
        forall a | a in prior
          ensures !IsStrictAncestor(d, a) && !IsStrictAncestor(a, d)
        {
          var k :| 0 <= k < |init| && init[k] == a;
          assert walk[k] == a;
        }
      }
    }
  }

  /** A walked directory that qualifies and lies inside no reported directory is reported. */
  lemma {:induction false} ReportComplete(sc: Scanner, fs: FileSystem, walk: seq<Path>, d: Path)
    requires d in walk && Qualifies(sc, fs, d)
    requires !UnderProject(Elems(Report(sc, fs, walk)), d)
    ensures d in Report(sc, fs, walk)
    decreases |walk|
  {
    var n := |walk| - 1;
    var init, last := walk[..n], walk[n];
    assert walk == init + [last];
    ReportSnoc(sc, fs, init, last);
    var prior := Report(sc, fs, init);
    assert prior <= Report(sc, fs, walk);
    UnderProjectPrefix(prior, Report(sc, fs, walk), d);
    if d != last {
      assert d in init;
      ReportComplete(sc, fs, init, d);
    }
  }

  /** A directory inside no entry of a sequence is inside no entry of any prefix of it. */
  lemma UnderProjectPrefix(short: seq<Path>, long: seq<Path>, d: Path)
    requires short <= long
    ensures UnderProject(Elems(short), d) ==> UnderProject(Elems(long), d)
  {
    if UnderProject(Elems(short), d) {
      var k :| 0 <= k < |d| && d[..k] in Elems(short);
      var j :| 0 <= j < |short| && short[j] == d[..k];
      assert long[j] == d[..k];
    }
  }

  /**
   * With ancestors walked first, a walked entry is reported exactly when it is a
   * directory, is not excluded, holds a marker and lies inside no reported directory.
   */
  lemma ReportCharacterization(sc: Scanner, fs: FileSystem, walk: seq<Path>, d: Path)
    requires ParentsFirst(walk)
    ensures d in Report(sc, fs, walk) <==>
      d in walk && Qualifies(sc, fs, d) && !UnderProject(Elems(Report(sc, fs, walk)), d)
  {
    ReportSound(sc, fs, walk);
    ReportNoNesting(sc, fs, walk);
    UnderProjectMeans(Elems(Report(sc, fs, walk)), d);
    if d in walk && Qualifies(sc, fs, d) && !UnderProject(Elems(Report(sc, fs, walk)), d) {
      ReportComplete(sc, fs, walk, d);
    }
  }

  /** A walk that yields each path once reports each project once. */
  lemma {:induction false} ReportNoDuplicates(sc: Scanner, fs: FileSystem, walk: seq<Path>)
    requires NoDuplicates(walk)
    ensures NoDuplicates(Report(sc, fs, walk))
    decreases |walk|
  {
    if walk != [] {
      var n := |walk| - 1;
      var init := walk[..n];
      assert NoDuplicates(init);
      ReportNoDuplicates(sc, fs, init);
      ReportSound(sc, fs, init);
      assert walk[n] !in init;
    }
  }

  /** The walker's promise: it yields paths at or below the root, at most `depth` levels down. */
  predicate WalkWithin(root: Path, depth: nat, walk: seq<Path>) {
    forall i :: 0 <= i < |walk| ==> root <= walk[i] && |walk[i]| <= |root| + depth
  }

  /** Every project reported for a root lies at or below it, within the depth bound. */
  lemma RootReportWithinRoot(sc: Scanner, fs: FileSystem, root: Path)
    requires WalkWithin(root, sc.maxDepth, fs.walk(root, sc.maxDepth))
    ensures forall d :: d in RootReport(sc, fs, root) ==> root <= d && |d| <= |root| + sc.maxDepth
  {
    if root in fs.existing {
      ReportSound(sc, fs, fs.walk(root, sc.maxDepth));
    }
  }

  // ---------------------------------------------------------------------------
  // Merging the roots' lists

  /** The per-root lists appended in fold order. */
  function Concat(found: seq<seq<Project>>): seq<Project> {
    if found == [] then [] else Concat(found[..|found| - 1]) + found[|found| - 1]
  }

  /** The merge: each project is kept unless a project with its path was kept before. */
  function Dedup(ps: seq<Project>): seq<Project> {
    if ps == [] then []
    else
      var kept := Dedup(ps[..|ps| - 1]);
      if ps[|ps| - 1].path in PathSet(kept) then kept else kept + [ps[|ps| - 1]]
  }

  predicate NoDuplicatePaths(ps: seq<Project>) {
    forall i, j :: 0 <= i < j < |ps| ==> ps[i].path != ps[j].path
  }

  /** `ps[i]` is the first project in `ps` with its path. */
  predicate FirstWithPath(ps: seq<Project>, i: int) {
    0 <= i < |ps| && forall k :: 0 <= k < i ==> ps[k].path != ps[i].path
  }

  lemma PathSetSnoc(ps: seq<Project>, p: Project)
    ensures PathSet(ps + [p]) == PathSet(ps) + {p.path}
  {
    assert forall x :: x in ps + [p] <==> x in ps || x == p;
  }

  lemma PathSetOfPaths(ps: seq<Project>)
    ensures PathSet(ps) == Elems(PathsOf(ps))
  {
    forall x | x in Elems(PathsOf(ps)) ensures x in PathSet(ps) {
      var i :| 0 <= i < |ps| && PathsOf(ps)[i] == x;
      assert ps[i] in ps;
    }
  }

  /** The merge keeps every path once and only projects it was given. */
  lemma {:induction false} DedupProperties(ps: seq<Project>)
    ensures PathSet(Dedup(ps)) == PathSet(ps)
    ensures NoDuplicatePaths(Dedup(ps))
    ensures forall x :: x in Dedup(ps) ==> x in ps
    decreases |ps|
  {
    if ps != [] {
      var init, p := ps[..|ps| - 1], ps[|ps| - 1];
      assert ps == init + [p];
      DedupProperties(init);
      PathSetSnoc(init, p);
      PathSetSnoc(Dedup(init), p);
      var kept := Dedup(init);
      if p.path !in PathSet(kept) {
        forall i | 0 <= i < |kept| ensures kept[i].path != p.path {
          assert kept[i] in kept;
        }
      }
    }
  }

  /** The first project with each path is kept by the merge. */
  lemma {:induction false} DedupKeepsFirst(ps: seq<Project>)
    ensures forall i :: FirstWithPath(ps, i) ==> ps[i] in Dedup(ps)
    decreases |ps|
  {
    if ps != [] {
      var n := |ps| - 1;
      var init, p := ps[..n], ps[n];
      DedupKeepsFirst(init);
      DedupProperties(init);
      forall i | FirstWithPath(ps, i) ensures ps[i] in Dedup(ps) {
        if i < n {
          assert FirstWithPath(init, i);
        }
      }
    }
  }

  /** The project the merge keeps for a path is the first one in fold order with that path. */
  lemma DedupKeepsOnlyFirst(ps: seq<Project>)
    ensures forall x, i :: x in Dedup(ps) && FirstWithPath(ps, i) && ps[i].path == x.path ==> x == ps[i]
  {
    DedupKeepsFirst(ps);
    DedupProperties(ps);
    var d := Dedup(ps);
    forall x, i | x in d && FirstWithPath(ps, i) && ps[i].path == x.path ensures x == ps[i] {
      var a :| 0 <= a < |d| && d[a] == x;
      var b :| 0 <= b < |d| && d[b] == ps[i];
      assert a == b;
    }
  }

  /** Merging a list whose paths are all distinct changes nothing. */
  lemma {:induction false} DedupOfDistinct(ps: seq<Project>)
    requires NoDuplicatePaths(ps)
    ensures Dedup(ps) == ps
    decreases |ps|
  {
    if ps != [] {
      var n := |ps| - 1;
      var init := ps[..n];
      DedupOfDistinct(init);
      assert ps == init + [ps[n]];
    }
  }

  /** Projects whose paths were all merged already add nothing. */
  lemma {:induction false} DedupAbsorbs(a: seq<Project>, b: seq<Project>)
    requires PathSet(b) <= PathSet(a)
    ensures Dedup(a + b) == Dedup(a)
    decreases |b|
  {
    if b == [] {
      assert a + b == a;
    } else {
      var n := |b| - 1;
      var init := b[..n];
      assert (a + b)[..|a + b| - 1] == a + init && (a + b)[|a + b| - 1] == b[n];
      PathSetSnoc(init, b[n]);
      assert b == init + [b[n]];
      DedupAbsorbs(a, init);
      DedupProperties(a);
    }
  }

  /** Scanning the same root twice gives the list that scanning it once gives. */
  lemma ScanSameRootTwice(sc: Scanner, fs: FileSystem, root: Path, first: seq<Project>, second: seq<Project>)
    requires PathsOf(first) == RootReport(sc, fs, root) && PathsOf(second) == RootReport(sc, fs, root)
    ensures SortByName(Dedup(Concat([first, second]))) == SortByName(Dedup(Concat([first])))
  {
    assert [first, second][..1] == [first];
    assert Concat([first]) == first by {
      assert [first][..0] == [];
    }
    PathSetOfPaths(first);
    PathSetOfPaths(second);
    DedupAbsorbs(first, second);
  }

  // ---------------------------------------------------------------------------
  // Ordering by lower-cased name

  /** The sort key: the lower-cased project name. */
  function Key(p: Project): string {
    Lower(p.name)
  }

  predicate SortedByName(ps: seq<Project>) {
    forall i, j :: 0 <= i < j < |ps| ==> LexLe(Key(ps[i]), Key(ps[j]))
  }

  /** The projects whose key is `k`, in their order. */
  function WithKey(ps: seq<Project>, k: string): seq<Project> {
    if ps == [] then []
    else WithKey(ps[..|ps| - 1], k) + (if Key(ps[|ps| - 1]) == k then [ps[|ps| - 1]] else [])
  }

  /** Insert `p` after every element whose key is not greater than its own. */
  function InsertByName(sorted: seq<Project>, p: Project): seq<Project>
    decreases |sorted|
  {
    if sorted == [] || LexLe(Key(sorted[|sorted| - 1]), Key(p)) then sorted + [p]
    else InsertByName(sorted[..|sorted| - 1], p) + [sorted[|sorted| - 1]]
  }

  /** `sort_by` on the lower-cased names, a stable sort. */
  function SortByName(ps: seq<Project>): seq<Project> {
    if ps == [] then [] else InsertByName(SortByName(ps[..|ps| - 1]), ps[|ps| - 1])
  }

  lemma {:induction false} InsertPermutes(sorted: seq<Project>, p: Project)
    ensures multiset(InsertByName(sorted, p)) == multiset(sorted) + multiset{p}
    decreases |sorted|
  {
    if !(sorted == [] || LexLe(Key(sorted[|sorted| - 1]), Key(p))) {
      var n := |sorted| - 1;
      InsertPermutes(sorted[..n], p);
      assert sorted == sorted[..n] + [sorted[n]];
    }
  }

  lemma {:induction false} InsertSorted(sorted: seq<Project>, p: Project)
    requires SortedByName(sorted)
    ensures SortedByName(InsertByName(sorted, p))
    decreases |sorted|
  {
    if sorted != [] {
      var n := |sorted| - 1;
      var init, last := sorted[..n], sorted[n];
      if LexLe(Key(last), Key(p)) {
        forall i | 0 <= i < n ensures LexLe(Key(sorted[i]), Key(p)) {
          LexLeTransitive(Key(sorted[i]), Key(last), Key(p));
        }
        SortedSnoc(sorted, p);
      } else {
        LexLeTotal(Key(last), Key(p));
        InsertSorted(init, p);
        InsertBounded(init, p, last);
        SortedSnoc(InsertByName(init, p), last);
      }
    }
  }

  /** A sorted sequence stays sorted when an element no smaller than all of it is appended. */
  lemma SortedSnoc(ps: seq<Project>, x: Project)
    requires SortedByName(ps)
    requires forall i :: 0 <= i < |ps| ==> LexLe(Key(ps[i]), Key(x))
    ensures SortedByName(ps + [x])
  {
  }

  /** Inserting into projects that all sort before `bound` an element that also does keeps that so. */
  lemma InsertBounded(sorted: seq<Project>, p: Project, bound: Project)
    requires forall i :: 0 <= i < |sorted| ==> LexLe(Key(sorted[i]), Key(bound))
    requires LexLe(Key(p), Key(bound))
    ensures forall i :: 0 <= i < |InsertByName(sorted, p)| ==> LexLe(Key(InsertByName(sorted, p)[i]), Key(bound))
  {
    var r := InsertByName(sorted, p);
    InsertPermutes(sorted, p);
    forall i | 0 <= i < |r| ensures LexLe(Key(r[i]), Key(bound)) {
      assert r[i] in multiset(r);
      if r[i] != p {
        assert r[i] in multiset(sorted);
        var k :| 0 <= k < |sorted| && sorted[k] == r[i];
      }
    }
  }

  lemma {:induction false} InsertKeepsKeyOrder(sorted: seq<Project>, p: Project, k: string)
    ensures WithKey(InsertByName(sorted, p), k) == WithKey(sorted, k) + (if Key(p) == k then [p] else [])
    decreases |sorted|
  {
    if sorted == [] || LexLe(Key(sorted[|sorted| - 1]), Key(p)) {
      WithKeySnoc(sorted, p, k);
    } else {
      var n := |sorted| - 1;
      var init, last := sorted[..n], sorted[n];
      assert sorted == init + [last];
      InsertKeepsKeyOrder(init, p, k);
      LexLeReflexive(Key(p));
      PassLarger(InsertByName(init, p), init, p, last, k);
    }
  }

  /** Moving a project past a later one with a different key leaves the order within each key alone. */
  lemma PassLarger(r: seq<Project>, init: seq<Project>, p: Project, last: Project, k: string)
    requires Key(p) != Key(last)
    requires WithKey(r, k) == WithKey(init, k) + (if Key(p) == k then [p] else [])
    ensures WithKey(r + [last], k) == WithKey(init + [last], k) + (if Key(p) == k then [p] else [])
  {
    WithKeySnoc(r, last, k);
    WithKeySnoc(init, last, k);
    AppendSwap(WithKey(init, k), if Key(p) == k then [p] else [], if Key(last) == k then [last] else []);
  }

  /** Two appended pieces commute when one of them is empty. */
  lemma AppendSwap<T>(a: seq<T>, x: seq<T>, y: seq<T>)
    requires x == [] || y == []
    ensures (a + x) + y == (a + y) + x
  {
  }

  lemma WithKeySnoc(ps: seq<Project>, x: Project, k: string)
    ensures WithKey(ps + [x], k) == WithKey(ps, k) + (if Key(x) == k then [x] else [])
  {
    assert (ps + [x])[..|ps|] == ps;
  }

  /**
   * The result is sorted by lower-cased name, holds exactly the input projects,
   * and projects with equal keys keep their input order.
   */
  lemma {:induction false} SortByNameCorrect(ps: seq<Project>)
    ensures SortedByName(SortByName(ps))
    ensures multiset(SortByName(ps)) == multiset(ps)
    ensures forall k :: WithKey(SortByName(ps), k) == WithKey(ps, k)
    decreases |ps|
  {
    if ps != [] {
      var n := |ps| - 1;
      var init := ps[..n];
      SortByNameCorrect(init);
      InsertSorted(SortByName(init), ps[n]);
      InsertPermutes(SortByName(init), ps[n]);
      assert ps == init + [ps[n]];
      forall k ensures WithKey(SortByName(ps), k) == WithKey(ps, k) {
        InsertKeepsKeyOrder(SortByName(init), ps[n], k);
      }
    }
  }

  lemma MultisetPathSet(a: seq<Project>, b: seq<Project>)
    requires multiset(a) == multiset(b)
    ensures PathSet(a) == PathSet(b)
  {
    assert forall x :: x in a <==> x in multiset(a);
    assert forall x :: x in b <==> x in multiset(b);
  }

  /** Appending a project with a new path keeps paths distinct. */
  lemma DistinctSnoc(ps: seq<Project>, x: Project)
    requires NoDuplicatePaths(ps) && x.path !in PathSet(ps)
    ensures NoDuplicatePaths(ps + [x])
  {
    forall i | 0 <= i < |ps| ensures ps[i].path != x.path {
      assert ps[i] in ps;
    }
  }

  lemma PathSetInsert(sorted: seq<Project>, p: Project)
    ensures PathSet(InsertByName(sorted, p)) == PathSet(sorted) + {p.path}
  {
    InsertPermutes(sorted, p);
    assert multiset(sorted + [p]) == multiset(sorted) + multiset{p};
    MultisetPathSet(InsertByName(sorted, p), sorted + [p]);
    PathSetSnoc(sorted, p);
  }

  lemma {:induction false} InsertDistinct(sorted: seq<Project>, p: Project)
    requires NoDuplicatePaths(sorted) && p.path !in PathSet(sorted)
    ensures NoDuplicatePaths(InsertByName(sorted, p))
    decreases |sorted|
  {
    if sorted == [] || LexLe(Key(sorted[|sorted| - 1]), Key(p)) {
      DistinctSnoc(sorted, p);
    } else {
      var n := |sorted| - 1;
      var init, last := sorted[..n], sorted[n];
      assert sorted == init + [last];
      PathSetSnoc(init, last);
      assert NoDuplicatePaths(init);
      InsertDistinct(init, p);
      PathSetInsert(init, p);
      assert last.path !in PathSet(init) by {
        forall k | 0 <= k < n ensures init[k].path != last.path {
          assert sorted[k] == init[k];
        }
      }
      DistinctSnoc(InsertByName(init, p), last);
    }
  }

  /** Splitting off the last project of a list with distinct paths. */
  lemma DistinctInit(ps: seq<Project>)
    requires ps != [] && NoDuplicatePaths(ps)
    ensures NoDuplicatePaths(ps[..|ps| - 1]) && ps[|ps| - 1].path !in PathSet(ps[..|ps| - 1])
  {
    var n := |ps| - 1;
    forall x | x in ps[..n] ensures x.path != ps[n].path {
      var k :| 0 <= k < n && ps[..n][k] == x;
      assert ps[k] == x;
    }
  }

  /** Sorting a list whose paths are distinct keeps them distinct. */
  lemma {:induction false} SortByNameDistinct(ps: seq<Project>)
    requires NoDuplicatePaths(ps)
    ensures NoDuplicatePaths(SortByName(ps))
    decreases |ps|
  {
    if ps != [] {
      var n := |ps| - 1;
      var init := ps[..n];
      DistinctInit(ps);
      SortByNameDistinct(init);
      SortByNameCorrect(init);
      MultisetPathSet(SortByName(init), init);
      InsertDistinct(SortByName(init), ps[n]);
    }
  }

  /** A project is in the concatenation exactly when it is in one of the lists. */
  lemma {:induction false} ConcatMembers(found: seq<seq<Project>>)
    ensures forall x :: x in Concat(found) <==> exists k :: 0 <= k < |found| && x in found[k]
    decreases |found|
  {
    if found != [] {
      var n := |found| - 1;
      var init := found[..n];
      ConcatMembers(init);
      forall x | x in Concat(found) ensures exists k :: 0 <= k < |found| && x in found[k] {
        if x in Concat(init) {
          var k :| 0 <= k < n && x in init[k];
          assert found[k] == init[k];
        }
      }
      forall x, k | 0 <= k < |found| && x in found[k] ensures x in Concat(found) {
        if k < n {
          assert found[k] == init[k];
        }
      }
    }
  }

  /**
   * Whatever order the roots are folded in, the merged paths are exactly the
   * paths reported for some root.
   */
  lemma MergedPaths(sc: Scanner, fs: FileSystem, roots: seq<Path>, order: seq<nat>, found: seq<seq<Project>>)
    requires |found| == |order|
    requires forall k :: 0 <= k < |order| ==> order[k] < |roots|
    requires forall i :: 0 <= i < |roots| ==> i in order
    requires forall k :: 0 <= k < |order| ==> PathsOf(found[k]) == RootReport(sc, fs, roots[order[k]])
    ensures forall p :: p in PathSet(Concat(found)) <==> exists i :: 0 <= i < |roots| && p in RootReport(sc, fs, roots[i])
  {
    ConcatMembers(found);
    forall k | 0 <= k < |found| ensures PathSet(found[k]) == Elems(RootReport(sc, fs, roots[order[k]])) {
      PathSetOfPaths(found[k]);
    }
    forall p | p in PathSet(Concat(found)) ensures exists i :: 0 <= i < |roots| && p in RootReport(sc, fs, roots[i]) {
      var x :| x in Concat(found) && x.path == p;
      var k :| 0 <= k < |found| && x in found[k];
      assert p in PathSet(found[k]);
    }
    forall p, i | 0 <= i < |roots| && p in RootReport(sc, fs, roots[i]) ensures p in PathSet(Concat(found)) {
      assert i in order;
      var k :| 0 <= k < |order| && order[k] == i;
      assert p in PathSet(found[k]);
      var x :| x in found[k] && x.path == p;
    }
  }

  lemma ConcatAllDetected(sc: Scanner, fs: FileSystem, found: seq<seq<Project>>)
    requires forall k :: 0 <= k < |found| ==> AllDetected(sc, fs, found[k])
    ensures forall x :: x in Concat(found) ==> Detected(sc, fs, x)
  {
    ConcatMembers(found);
    forall x | x in Concat(found) ensures Detected(sc, fs, x) {
      var k :| 0 <= k < |found| && x in found[k];
      var j :| 0 <= j < |found[k]| && found[k][j] == x;
    }
  }

  /** The indices `0 .. n - 1`. */
  function Indices(n: nat): (s: set<nat>)
    ensures forall i: int :: i in s <==> 0 <= i < n
  {
    if n == 0 then {} else Indices(n - 1) + {n - 1}
  }

  /**
   * The critical section of `scan`: one root's projects are appended to the merged
   * list unless their path was seen already.
   */
  method MergeRoot(ghost before: seq<Project>, merged: seq<Project>, seen: set<Path>, projects: seq<Project>)
    returns (merged': seq<Project>, seen': set<Path>)
    requires merged == Dedup(before) && seen == PathSet(merged)
    ensures merged' == Dedup(before + projects) && seen' == PathSet(merged')
  {
    merged', seen' := merged, seen;
    assert before + projects[..0] == before;
    for j := 0 to |projects|
      invariant merged' == Dedup(before + projects[..j])
      invariant seen' == PathSet(merged')
    {
      var p := projects[j];
      assert before + projects[..j + 1] == (before + projects[..j]) + [p];
      if p.path !in seen' {
        PathSetSnoc(merged', p);
        merged' := merged' + [p];
        seen' := seen' + {p.path};
      }
    }
    assert projects[..|projects|] == projects;
  }

  /** What the sorted merge of the roots' lists satisfies. */
  lemma ScanResult(sc: Scanner, fs: FileSystem, roots: seq<Path>, order: seq<nat>, found: seq<seq<Project>>)
    requires |found| == |order|
    requires forall k :: 0 <= k < |order| ==> order[k] < |roots|
    requires forall i :: 0 <= i < |roots| ==> i in order
    requires forall k :: 0 <= k < |order| ==>
               PathsOf(found[k]) == RootReport(sc, fs, roots[order[k]]) && AllDetected(sc, fs, found[k])
    ensures var result := SortByName(Dedup(Concat(found)));
      && SortedByName(result) && NoDuplicatePaths(result) && AllDetected(sc, fs, result)
      && forall p :: p in PathSet(result) <==> exists i :: 0 <= i < |roots| && p in RootReport(sc, fs, roots[i])
  {
    var merged := Dedup(Concat(found));
    var result := SortByName(merged);
    SortByNameCorrect(merged);
    DedupProperties(Concat(found));
    SortByNameDistinct(merged);
    MultisetPathSet(result, merged);
    MergedPaths(sc, fs, roots, order, found);
    ConcatAllDetected(sc, fs, found);
    forall j | 0 <= j < |result| ensures Detected(sc, fs, result[j]) {
      assert result[j] in multiset(merged);
    }
  }

  /**
   * The bookkeeping of the fan-out: the roots folded so far are `order`, each once,
   * each with its list in `found`, and the roots not yet folded are `pending`.
   */
  predicate Folded(sc: Scanner, fs: FileSystem, roots: seq<Path>, pending: set<nat>, order: seq<nat>, found: seq<seq<Project>>) {
    && (forall i :: i in pending ==> i < |roots|)
    && (forall k :: 0 <= k < |order| ==> order[k] < |roots| && order[k] !in pending)
    && (forall i :: 0 <= i < |roots| ==> i in pending || i in order)
    && NoDuplicates(order) && |found| == |order|
    && (forall k :: 0 <= k < |order| ==>
          PathsOf(found[k]) == RootReport(sc, fs, roots[order[k]]) && AllDetected(sc, fs, found[k]))
  }

  /** Folding one more pending root keeps the bookkeeping right. */
  lemma FoldedStep(sc: Scanner, fs: FileSystem, roots: seq<Path>, pending: set<nat>, order: seq<nat>,
                   found: seq<seq<Project>>, i: nat, projects: seq<Project>)
    requires Folded(sc, fs, roots, pending, order, found) && i in pending
    requires PathsOf(projects) == RootReport(sc, fs, roots[i]) && AllDetected(sc, fs, projects)
    ensures Folded(sc, fs, roots, pending - {i}, order + [i], found + [projects])
  {
    var order', found' := order + [i], found + [projects];
    forall k | 0 <= k < |order'|
      ensures PathsOf(found'[k]) == RootReport(sc, fs, roots[order'[k]]) && AllDetected(sc, fs, found'[k])
    {
      if k < |order| {
        assert found'[k] == found[k] && order'[k] == order[k];
      }
    }
  }

  /**
   * `scan`: every root is scanned (the parallel fan-out becomes a fold over the
   * roots in an unspecified order, `order`; `found` holds each root's list in
   * that order), projects are merged keeping the first one for each path, and the
   * merged list is sorted by lower-cased name.
   */
  method Scan(sc: Scanner, fs: FileSystem, roots: seq<Path>)
    returns (result: seq<Project>, ghost order: seq<nat>, ghost found: seq<seq<Project>>)
    ensures NoDuplicates(order) && |found| == |order|
    ensures forall k :: 0 <= k < |order| ==> order[k] < |roots|
    ensures forall i :: 0 <= i < |roots| ==> i in order
    ensures forall k :: 0 <= k < |order| ==>
              PathsOf(found[k]) == RootReport(sc, fs, roots[order[k]]) && AllDetected(sc, fs, found[k])
    ensures result == SortByName(Dedup(Concat(found)))
    ensures SortedByName(result) && NoDuplicatePaths(result) && AllDetected(sc, fs, result)
    ensures forall p :: p in PathSet(result) <==> exists i :: 0 <= i < |roots| && p in RootReport(sc, fs, roots[i])
  {
    var merged: seq<Project> := [];
    var seen: set<Path> := {};
    var pending := Indices(|roots|);
    order, found := [], [];
    while pending != {}
      invariant Folded(sc, fs, roots, pending, order, found)
      invariant merged == Dedup(Concat(found)) && seen == PathSet(merged)
      decreases |pending|
    {
      var i :| i in pending;
      var projects := ScanRoot(sc, fs, roots[i]);
      merged, seen := MergeRoot(Concat(found), merged, seen, projects);
      FoldedStep(sc, fs, roots, pending, order, found, i, projects);
      assert (found + [projects])[..|found|] == found;
      order, found := order + [i], found + [projects];
      pending := pending - {i};
    }
    result := SortByName(merged);
    ScanResult(sc, fs, roots, order, found);
  }

  // ---------------------------------------------------------------------------
  // Filtering by a query

  /** Every term occurs in the lower-cased name or in the lower-cased path string. */
  predicate MatchesAll(terms: seq<string>, p: Project) {
    forall t :: t in terms ==> Contains(Lower(p.name), t) || Contains(Lower(PathString(p.path)), t)
  }

  /** The projects that match every term, in their order. */
  function KeepMatching(ps: seq<Project>, terms: seq<string>): (r: seq<Project>)
    ensures |r| <= |ps|
    ensures forall p :: p in r <==> p in ps && MatchesAll(terms, p)
  {
    if ps == [] then []
    else (if MatchesAll(terms, ps[0]) then [ps[0]] else []) + KeepMatching(ps[1..], terms)
  }

  /**
   * `filter_projects`: an empty query keeps everything; otherwise a project is kept
   * when every white-space-separated term of the lower-cased query occurs in its
   * lower-cased name or path.
   */
  function FilterProjects(projects: seq<Project>, query: string): (r: seq<Project>)
    ensures query == "" ==> r == projects
    ensures forall p :: p in r <==> p in projects && (query == "" || MatchesAll(SplitWhitespace(Lower(query)), p))
    ensures |r| <= |projects|
  {
    if query == "" then projects else KeepMatching(projects, SplitWhitespace(Lower(query)))
  }

  lemma {:induction false} KeepMatchingConcat(a: seq<Project>, b: seq<Project>, terms: seq<string>)
    ensures KeepMatching(a + b, terms) == KeepMatching(a, terms) + KeepMatching(b, terms)
  {
    if a == [] {
      assert a + b == b;
    } else {
      assert (a + b)[0] == a[0] && (a + b)[1..] == a[1..] + b;
      KeepMatchingConcat(a[1..], b, terms);
    }
  }

  /** Filtering keeps the order of the list: filtering a concatenation concatenates the filtered parts. */
  lemma FilterKeepsOrder(a: seq<Project>, b: seq<Project>, query: string)
    ensures FilterProjects(a + b, query) == FilterProjects(a, query) + FilterProjects(b, query)
  {
    if query != "" {
      KeepMatchingConcat(a, b, SplitWhitespace(Lower(query)));
    }
  }

  lemma {:induction false} KeepMatchingAll(ps: seq<Project>, terms: seq<string>)
    requires forall i :: 0 <= i < |ps| ==> MatchesAll(terms, ps[i])
    ensures KeepMatching(ps, terms) == ps
  {
    if ps != [] {
      KeepMatchingAll(ps[1..], terms);
      assert ps == [ps[0]] + ps[1..];
    }
  }

  /** A query of white space only has no terms, so it keeps every project. */
  lemma BlankQueryKeepsAll(projects: seq<Project>, query: string)
    requires forall i :: 0 <= i < |query| ==> IsWhitespace(query[i])
    ensures FilterProjects(projects, query) == projects
  {
    if query != "" {
      assert forall i :: 0 <= i < |query| ==> Lower(query)[i] == query[i];
      KeepMatchingAll(projects, []);
    }
  }
}
