/**
 * The scanner's own tests, restated as lemmas over the model: the three-projects
 * scan, the nested-projects scan, a project below an excluded directory, and the
 * query filter. Each directory tree is given by the paths that exist, the ones
 * that are directories and the order the walker yields them in; `root` stands for
 * the temporary directory the tests create.
 */
module ScannerTests {
  import opened Paths
  import opened Text
  import opened Collections
  import opened Scanner

  /**
   * The directory tree of the nested-projects test: `parent/.git` and `parent/child/Cargo.toml`
   * under `root`, both created as files.
   */
  predicate NestedTree(fs: FileSystem, root: Path) {
    var parent, child := root + ["parent"], root + ["parent", "child"];
    && fs.existing == {root, parent, parent + [".git"], child, child + ["Cargo.toml"]}
    && fs.dirs == {root, parent, child}
  }

  lemma RootHasNoMarker(sc: Scanner, fs: FileSystem, root: Path)
    requires NestedTree(fs, root) && "parent" !in sc.markers
    ensures !HasMarker(sc, fs, root)
  {
    forall m | m in sc.markers
      ensures Join(root, m) !in fs.existing
    {
      assert |Join(root, m)| == |root| + 1;
      assert Join(root, m)[|root|] == m;
      assert (root + ["parent"])[|root|] == "parent";
    }
  }

  /** `parent` is a directory holding `.git`, so it qualifies. */
  lemma ParentQualifies(sc: Scanner, fs: FileSystem, root: Path)
    requires NestedTree(fs, root)
    requires ".git" in sc.markers && "parent" !in sc.excludeDirs
    ensures Qualifies(sc, fs, root + ["parent"])
  {
    var parent := root + ["parent"];
    assert Join(parent, ".git") == root + ["parent", ".git"];
  }

  /** An entry below the only reported project is skipped. */
  lemma SkippedBelow(sc: Scanner, fs: FileSystem, w: seq<Path>, p: Path, d: Path)
    requires Report(sc, fs, w) == [p] && IsStrictAncestor(p, d)
    ensures Report(sc, fs, w + [d]) == [p]
  {
    ReportSnoc(sc, fs, w, d);
    assert d[..|p|] in Elems([p]);
  }

  lemma NestedProjectScenario(sc: Scanner, fs: FileSystem, root: Path)
    requires NestedTree(fs, root)
    requires fs.walk(root, sc.maxDepth) ==
      [root, root + ["parent"], root + ["parent", ".git"], root + ["parent", "child"], root + ["parent", "child", "Cargo.toml"]]
    requires ".git" in sc.markers && "parent" !in sc.markers && "parent" !in sc.excludeDirs
    ensures RootReport(sc, fs, root) == [root + ["parent"]]
    ensures NameOf(root + ["parent"]) == "parent"
  {
    var parent := root + ["parent"];
    var w := fs.walk(root, sc.maxDepth);
    var w2, w3, w4 := w[..2], w[..3], w[..4];
    assert w[0] == root && w[1] == parent;
    assert w2 == [root] + [parent] && w3 == w2 + [w[2]] && w4 == w3 + [w[3]] && w == w4 + [w[4]];
    assert IsStrictAncestor(parent, w[2]) && IsStrictAncestor(parent, w[3]) && IsStrictAncestor(parent, w[4]);
    RootHasNoMarker(sc, fs, root);
    ParentQualifies(sc, fs, root);
    ReportSnoc(sc, fs, [], root);
    assert [] + [root] == [root];
    ReportSnoc(sc, fs, [root], parent);
    SkippedBelow(sc, fs, w2, parent, w[2]);
    SkippedBelow(sc, fs, w3, parent, w[3]);
    SkippedBelow(sc, fs, w4, parent, w[4]);
  }

  /** The tree of the three-projects test: files `a/.git`, `b/Cargo.toml` and `c/package.json` under `root`. */
  predicate SiblingTree(fs: FileSystem, root: Path) {
    var a, b, c := root + ["project-a"], root + ["project-b"], root + ["project-c"];
    && fs.existing == {root, a, a + [".git"], b, b + ["Cargo.toml"], c, c + ["package.json"]}
    && fs.dirs == {root, a, b, c}
  }

  lemma SiblingRootHasNoMarker(sc: Scanner, fs: FileSystem, root: Path)
    requires SiblingTree(fs, root)
    requires "project-a" !in sc.markers && "project-b" !in sc.markers && "project-c" !in sc.markers
    ensures !HasMarker(sc, fs, root)
  {
    forall m | m in sc.markers
      ensures Join(root, m) !in fs.existing
    {
      assert Join(root, m)[|root|] == m;
      assert (root + ["project-a"])[|root|] == "project-a";
      assert (root + ["project-b"])[|root|] == "project-b";
      assert (root + ["project-c"])[|root|] == "project-c";
    }
  }

  /** The first project of the sibling tree is reported, and what lies inside it is skipped. */
  lemma SiblingFirstProject(sc: Scanner, fs: FileSystem, root: Path, w: seq<Path>)
    requires SiblingTree(fs, root)
    requires w == [root, root + ["project-a"], root + ["project-a", ".git"]]
    requires ".git" in sc.markers
    requires "project-a" !in sc.markers && "project-b" !in sc.markers && "project-c" !in sc.markers
    requires "project-a" !in sc.excludeDirs
    ensures Report(sc, fs, w) == [root + ["project-a"]]
  {
    var a := root + ["project-a"];
    SiblingRootHasNoMarker(sc, fs, root);
    assert Join(a, ".git") == w[2];
    assert Qualifies(sc, fs, a);
    assert UnderProject({a}, w[2]) by { assert w[2][..|a|] == a; }
    assert w[..1] == [] + [root];
    ReportSnoc(sc, fs, [], root);
    assert w[..2] == w[..1] + [w[1]];
    ReportSnoc(sc, fs, w[..1], w[1]);
    assert w == w[..2] + [w[2]];
    ReportSnoc(sc, fs, w[..2], w[2]);
  }

  /** A sibling directory holding `marker` is reported after the earlier siblings, its marker file skipped. */
  lemma SiblingNextProject(sc: Scanner, fs: FileSystem, w: seq<Path>, dir: Path, marker: string)
    requires Qualifies(sc, fs, dir) && dir + [marker] !in fs.dirs
    requires forall i :: 0 <= i < |Report(sc, fs, w)| ==> |Report(sc, fs, w)[i]| == |dir| && Report(sc, fs, w)[i] != dir
    ensures Report(sc, fs, w + [dir, dir + [marker]]) == Report(sc, fs, w) + [dir]
  {
    var prior := Report(sc, fs, w);
    assert !UnderProject(Elems(prior), dir);
    ReportSnoc(sc, fs, w, dir);
    assert w + [dir, dir + [marker]] == (w + [dir]) + [dir + [marker]];
    ReportSnoc(sc, fs, w + [dir], dir + [marker]);
  }

  /** The second and third siblings qualify, and their marker files are not directories. */
  lemma SiblingsQualify(sc: Scanner, fs: FileSystem, root: Path)
    requires SiblingTree(fs, root)
    requires "Cargo.toml" in sc.markers && "package.json" in sc.markers
    requires "project-b" !in sc.excludeDirs && "project-c" !in sc.excludeDirs
    ensures Qualifies(sc, fs, root + ["project-b"]) && root + ["project-b", "Cargo.toml"] !in fs.dirs
    ensures Qualifies(sc, fs, root + ["project-c"]) && root + ["project-c", "package.json"] !in fs.dirs
  {
    var b, c := root + ["project-b"], root + ["project-c"];
    assert Join(b, "Cargo.toml") == root + ["project-b", "Cargo.toml"] && Join(b, "Cargo.toml") in fs.existing;
    assert Join(c, "package.json") == root + ["project-c", "package.json"] && Join(c, "package.json") in fs.existing;
  }

  lemma SiblingProjectsScenario(sc: Scanner, fs: FileSystem, root: Path)
    requires SiblingTree(fs, root)
    requires fs.walk(root, sc.maxDepth) ==
      [root, root + ["project-a"], root + ["project-a", ".git"], root + ["project-b"],
       root + ["project-b", "Cargo.toml"], root + ["project-c"], root + ["project-c", "package.json"]]
    requires ".git" in sc.markers && "Cargo.toml" in sc.markers && "package.json" in sc.markers
    requires "project-a" !in sc.markers && "project-b" !in sc.markers && "project-c" !in sc.markers
    requires "project-a" !in sc.excludeDirs && "project-b" !in sc.excludeDirs && "project-c" !in sc.excludeDirs
    ensures RootReport(sc, fs, root) == [root + ["project-a"], root + ["project-b"], root + ["project-c"]]
  {
    var a, b, c := root + ["project-a"], root + ["project-b"], root + ["project-c"];
    var w := fs.walk(root, sc.maxDepth);
    var w3, w5 := w[..3], w[..5];
    assert w[3] == b && w[4] == b + ["Cargo.toml"] && w[5] == c && w[6] == c + ["package.json"];
    assert w5 == w3 + [b, b + ["Cargo.toml"]];
    assert w == w5 + [c, c + ["package.json"]];
    SiblingFirstProject(sc, fs, root, w3);
    SiblingsQualify(sc, fs, root);
    assert a != b && a != c && b != c by {
      assert a[|root|] == "project-a" && b[|root|] == "project-b" && c[|root|] == "project-c";
    }
    SiblingNextProject(sc, fs, w3, b, "Cargo.toml");
    SiblingNextProject(sc, fs, w5, c, "package.json");
  }

  /**
   * A project below an excluded directory: only `node_modules` itself is skipped,
   * the walk still descends into it and `node_modules/fake-project` is reported.
   */
  lemma ExcludedDirDescendantScenario(sc: Scanner, fs: FileSystem, root: Path)
    requires fs.existing == {root, root + ["node_modules"], root + ["node_modules", "fake-project"],
                             root + ["node_modules", "fake-project", "package.json"]}
    requires fs.dirs == {root, root + ["node_modules"], root + ["node_modules", "fake-project"]}
    requires fs.walk(root, sc.maxDepth) ==
      [root, root + ["node_modules"], root + ["node_modules", "fake-project"],
       root + ["node_modules", "fake-project", "package.json"]]
    requires "package.json" in sc.markers && "node_modules" !in sc.markers
    requires "node_modules" in sc.excludeDirs && "fake-project" !in sc.excludeDirs
    ensures RootReport(sc, fs, root) == [root + ["node_modules", "fake-project"]]
  {
    var nm, fake := root + ["node_modules"], root + ["node_modules", "fake-project"];
    var w := fs.walk(root, sc.maxDepth);
    forall m | m in sc.markers
      ensures Join(root, m) !in fs.existing
    {
      assert Join(root, m)[|root|] == m;
      assert nm[|root|] == "node_modules";
    }
    assert IsExcluded(sc, nm);
    assert Join(fake, "package.json") == w[3];
    assert Qualifies(sc, fs, fake);
    assert !UnderProject({}, fake);
    assert w[3] !in fs.dirs;
    assert w[..1] == [] + [root];
    ReportSnoc(sc, fs, [], root);
    assert w[..2] == w[..1] + [w[1]];
    ReportSnoc(sc, fs, w[..1], w[1]);
    assert w[..3] == w[..2] + [w[2]];
    ReportSnoc(sc, fs, w[..2], w[2]);
    assert w == w[..3] + [w[3]];
    ReportSnoc(sc, fs, w[..3], w[3]);
  }

  /** Scanning one root whose walk reports no path twice lists exactly the reported projects. */
  lemma SingleRootScanCount(sc: Scanner, fs: FileSystem, root: Path, found: seq<seq<Project>>)
    requires |found| == 1 && PathsOf(found[0]) == RootReport(sc, fs, root)
    requires NoDuplicates(RootReport(sc, fs, root))
    ensures |SortByName(Dedup(Concat(found)))| == |RootReport(sc, fs, root)|
  {
    assert found[..0] == [];
    assert Concat(found) == found[0];
    var ps := found[0];
    assert NoDuplicatePaths(ps) by {
      forall i, j | 0 <= i < j < |ps| ensures ps[i].path != ps[j].path {
        assert PathsOf(ps)[i] == ps[i].path && PathsOf(ps)[j] == ps[j].path;
      }
    }
    DedupOfDistinct(ps);
    SortByNameCorrect(ps);
    assert |multiset(SortByName(ps))| == |multiset(ps)|;
  }

  /** The order a scan of a single root visits its roots in is just that root. */
  lemma SingleRootOrder(order: seq<nat>)
    requires NoDuplicates(order)
    requires forall k :: 0 <= k < |order| ==> order[k] < 1
    requires 0 in order
    ensures order == [0]
  {
    assert Elems(order) == {0};
    DistinctElemsCount(order);
  }

  /** The three-projects test: scanning the root finds three projects. */
  method SiblingScanScenario(sc: Scanner, fs: FileSystem, root: Path) returns (result: seq<Project>)
    requires SiblingTree(fs, root)
    requires fs.walk(root, sc.maxDepth) ==
      [root, root + ["project-a"], root + ["project-a", ".git"], root + ["project-b"],
       root + ["project-b", "Cargo.toml"], root + ["project-c"], root + ["project-c", "package.json"]]
    requires ".git" in sc.markers && "Cargo.toml" in sc.markers && "package.json" in sc.markers
    requires "project-a" !in sc.markers && "project-b" !in sc.markers && "project-c" !in sc.markers
    requires "project-a" !in sc.excludeDirs && "project-b" !in sc.excludeDirs && "project-c" !in sc.excludeDirs
    ensures |result| == 3
  {
    ghost var order, found;
    result, order, found := Scan(sc, fs, [root]);
    SingleRootOrder(order);
    SiblingReportDistinct(sc, fs, root);
    SingleRootScanCount(sc, fs, root, found);
  }

  lemma SiblingReportDistinct(sc: Scanner, fs: FileSystem, root: Path)
    requires SiblingTree(fs, root)
    requires fs.walk(root, sc.maxDepth) ==
      [root, root + ["project-a"], root + ["project-a", ".git"], root + ["project-b"],
       root + ["project-b", "Cargo.toml"], root + ["project-c"], root + ["project-c", "package.json"]]
    requires ".git" in sc.markers && "Cargo.toml" in sc.markers && "package.json" in sc.markers
    requires "project-a" !in sc.markers && "project-b" !in sc.markers && "project-c" !in sc.markers
    requires "project-a" !in sc.excludeDirs && "project-b" !in sc.excludeDirs && "project-c" !in sc.excludeDirs
    ensures |RootReport(sc, fs, root)| == 3 && NoDuplicates(RootReport(sc, fs, root))
  {
    SiblingProjectsScenario(sc, fs, root);
    var a, b, c := root + ["project-a"], root + ["project-b"], root + ["project-c"];
    assert a[|root|] != b[|root|] && a[|root|] != c[|root|] && b[|root|] != c[|root|];
  }

  /** The nested-projects test: scanning the root finds only `parent`. */
  method NestedScanScenario(sc: Scanner, fs: FileSystem, root: Path) returns (result: seq<Project>)
    requires NestedTree(fs, root)
    requires fs.walk(root, sc.maxDepth) ==
      [root, root + ["parent"], root + ["parent", ".git"], root + ["parent", "child"], root + ["parent", "child", "Cargo.toml"]]
    requires ".git" in sc.markers && "parent" !in sc.markers && "parent" !in sc.excludeDirs
    ensures |result| == 1 && result[0].name == "parent"
  {
    ghost var order, found;
    result, order, found := Scan(sc, fs, [root]);
    SingleRootOrder(order);
    NestedProjectScenario(sc, fs, root);
    SingleRootScanCount(sc, fs, root, found);
    assert result[0].path in PathSet(result);
    assert Detected(sc, fs, result[0]);
  }

  // ---------------------------------------------------------------------------
  // The filter test

  lemma RustQueryTerms()
    ensures SplitWhitespace(Lower("rust")) == ["rust"]
  {
    assert Lower("rust") == "rust";
    assert !IsWhitespace("rust"[0]) && WordLength("rust") == 4;
    assert "rust"[..4] == "rust" && "rust"[4..] == [];
  }

  /** A text without the letter `t` in either case does not contain the term "rust" once lowered. */
  lemma NoRustIn(s: string)
    requires 't' !in s && 'T' !in s
    ensures !Contains(Lower(s), "rust")
  {
    forall i | 0 <= i < |s|
      ensures Lower(s)[i] != 't'
    {
      assert s[i] in s;
    }
    assert "rust"[3] == 't';
    MissingCharNotContained(Lower(s), "rust", 't');
  }

  lemma NodeAppPathString(p: Path)
    requires p == ["home", "user", "node-app"]
    ensures PathString(p) == "/home/user/node-app"
  {
    assert p[1..] == ["user", "node-app"] && p[1..][1..] == ["node-app"] && p[1..][1..][1..] == [];
    assert Slashed(p[1..][1..]) == "/node-app";
    assert Slashed(p[1..]) == "/user/node-app";
  }

  lemma NodeAppDoesNotMatch(node: Project)
    requires node.name == "node-app" && node.path == ["home", "user", "node-app"]
    ensures !MatchesAll(["rust"], node)
  {
    NodeAppNameLacksRust(node.name);
    NodeAppPathLacksRust(node.path);
    assert "rust" in ["rust"];
  }

  lemma NodeAppNameLacksRust(name: string)
    requires name == "node-app"
    ensures !Contains(Lower(name), "rust")
  {
    NoRustIn(name);
  }

  lemma NodeAppPathLacksRust(p: Path)
    requires p == ["home", "user", "node-app"]
    ensures !Contains(Lower(PathString(p)), "rust")
  {
    NodeAppPathString(p);
    NoRustIn(PathString(p));
  }

  lemma RustProjectMatches(rust: Project)
    requires rust.name == "rust-project"
    ensures MatchesAll(["rust"], rust)
  {
    LowerOfLowercase(rust.name);
    assert "rust" <= rust.name;
  }

  lemma KeepFirstOfTwo(a: Project, b: Project, terms: seq<string>)
    requires MatchesAll(terms, a) && !MatchesAll(terms, b)
    ensures KeepMatching([a, b], terms) == [a]
  {
    assert [a, b][1..] == [b] && [b][1..] == [];
    assert KeepMatching([b], terms) == [];
  }

  /** The filter test: "rust" keeps only the Rust project, the empty query keeps both. */
  lemma FilterScenario(rust: Project, node: Project)
    requires rust == Project(["home", "user", "rust-project"], "rust-project", "Cargo.toml")
    requires node == Project(["home", "user", "node-app"], "node-app", "package.json")
    ensures FilterProjects([rust, node], "rust") == [rust]
    ensures FilterProjects([rust, node], "") == [rust, node]
  {
    RustQueryTerms();
    RustProjectMatches(rust);
    NodeAppDoesNotMatch(node);
    KeepFirstOfTwo(rust, node, ["rust"]);
  }
}
