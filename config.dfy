/**
 * The application configuration: the search roots, the preferred editor, the scan
 * depth, the marker names and the excluded directory names, with the operations
 * that edit the root list and choose the editor. Reading and writing the TOML
 * file, `~` expansion, canonicalisation and the `EDITOR` variable are supplied
 * by the caller as values.
 */
module Config {
  import opened Wrappers
  import opened Paths
  import opened Collections

  /** `default_max_depth`. */
  function DefaultMaxDepth(): nat {
    4
  }

  /** `default_project_markers`: fourteen distinct marker names. */
  function DefaultProjectMarkers(): (markers: seq<string>)
    ensures |markers| == 14 && NoDuplicates(markers)
  {
    var markers := [".git", "Cargo.toml", "package.json", "go.mod", "pyproject.toml", "setup.py", "pom.xml",
      "build.gradle", "Makefile", "CMakeLists.txt", "composer.json", "Gemfile", "mix.exs", "deno.json"];
    DistinctBySignature(markers);
    markers
  }

  /** `default_exclude_dirs`: eleven distinct directory names. */
  function DefaultExcludeDirs(): (dirs: seq<string>)
    ensures |dirs| == 11 && NoDuplicates(dirs)
  {
    var dirs := ["node_modules", "target", ".venv", "venv", "__pycache__", ".cache", "dist", "build",
      ".next", ".nuxt", "vendor"];
    DistinctBySignature(dirs);
    dirs
  }

  /** The markers of the common toolchains and their dependency and build directories are among the defaults. */
  lemma DefaultsInclude()
    ensures ".git" in DefaultProjectMarkers() && "Cargo.toml" in DefaultProjectMarkers()
    ensures "package.json" in DefaultProjectMarkers()
    ensures "node_modules" in DefaultExcludeDirs() && "target" in DefaultExcludeDirs()
  {
    assert DefaultProjectMarkers()[0] == ".git" && DefaultProjectMarkers()[1] == "Cargo.toml";
    assert DefaultProjectMarkers()[2] == "package.json";
    assert DefaultExcludeDirs()[0] == "node_modules" && DefaultExcludeDirs()[1] == "target";
  }

  /** Why `add_root_path` can fail: the expanded path could not be canonicalised. */
  datatype ConfigError = PathNotAccessible(expanded: Path)

  /** `Vec::retain(|p| p != target)` on a value: every copy of `target` dropped, the rest in order. */
  function Without(s: seq<Path>, target: Path): (r: seq<Path>)
    ensures forall x :: x in r <==> x in s && x != target
    ensures |r| <= |s|
  {
    if s == [] then []
    else if s[0] == target then Without(s[1..], target)
    else [s[0]] + Without(s[1..], target)
  }

  /** The list gets shorter exactly when the target was in it. */
  lemma {:induction false} WithoutShrinks(s: seq<Path>, target: Path)
    ensures |Without(s, target)| < |s| <==> target in s
    ensures target !in s ==> Without(s, target) == s
  {
    if s != [] {
      WithoutShrinks(s[1..], target);
    }
  }

  /** Dropping entries from a list without repeats leaves a list without repeats. */
  lemma {:induction false} WithoutDistinct(s: seq<Path>, target: Path)
    requires NoDuplicates(s)
    ensures NoDuplicates(Without(s, target))
  {
    if s != [] {
      assert NoDuplicates(s[1..]) by {
        forall i, j | 0 <= i < j < |s| - 1 ensures s[1..][i] != s[1..][j] {
          assert s[1..][i] == s[i + 1] && s[1..][j] == s[j + 1];
        }
      }
      WithoutDistinct(s[1..], target);
      assert s[0] !in s[1..] by {
        forall i | 0 <= i < |s| - 1 ensures s[1..][i] != s[0] {
          assert s[1..][i] == s[i + 1];
        }
      }
      var r := Without(s[1..], target);
      if s[0] != target {
        assert s[0] !in r;
        forall i, j | 0 <= i < j < |r| + 1 ensures ([s[0]] + r)[i] != ([s[0]] + r)[j] {
          if i == 0 {
            assert ([s[0]] + r)[j] == r[j - 1];
            assert r[j - 1] in r;
          } else {
            assert ([s[0]] + r)[i] == r[i - 1] && ([s[0]] + r)[j] == r[j - 1];
          }
        }
      }
    }
  }

  /** Filtering distributes over concatenation, so the kept entries stay in their order. */
  lemma {:induction false} WithoutConcat(a: seq<Path>, b: seq<Path>, target: Path)
    ensures Without(a + b, target) == Without(a, target) + Without(b, target)
  {
    if a == [] {
      assert a + b == b;
    } else {
      assert (a + b)[0] == a[0] && (a + b)[1..] == a[1..] + b;
      WithoutConcat(a[1..], b, target);
    }
  }

  /** The first present choice, or `fallback` when every choice is absent. */
  function FirstPresent(choices: seq<Option<string>>, fallback: string): (r: string)
    ensures (forall i :: 0 <= i < |choices| ==> choices[i].None?) ==> r == fallback
    ensures forall i :: 0 <= i < |choices| && choices[i].Some? && (forall j :: 0 <= j < i ==> choices[j].None?) ==>
                r == choices[i].value
  {
    if choices == [] then fallback
    else if choices[0].Some? then choices[0].value
    else FirstPresent(choices[1..], fallback)
  }

  class Config {
    var rootPaths: seq<Path>
    var editor: Option<string>
    var maxDepth: nat
    var projectMarkers: seq<string>
    var excludeDirs: seq<string>

    /** `Config::default`: no roots, no editor, depth 4, the default markers and exclusions. */
    constructor Default()
      ensures rootPaths == [] && editor == None && maxDepth == 4
      ensures ".git" in projectMarkers
      ensures projectMarkers == DefaultProjectMarkers() && excludeDirs == DefaultExcludeDirs()
    {
      rootPaths := [];
      editor := None;
      maxDepth := DefaultMaxDepth();
      projectMarkers := DefaultProjectMarkers();
      excludeDirs := DefaultExcludeDirs();
      DefaultsInclude();
    }

    /**
     * `add_root_path`: `canonical` is the canonical form of `expanded` (the path
     * after `~` expansion), or None when it cannot be canonicalised. A path already
     * present is not added again; a new one is appended.
     */
    method AddRootPath(expanded: Path, canonical: Option<Path>) returns (r: Result<bool, ConfigError>)
      modifies this`rootPaths
      ensures canonical.None? ==> r == Failure(PathNotAccessible(expanded)) && rootPaths == old(rootPaths)
      ensures canonical.Some? && canonical.value in old(rootPaths) ==> r == Success(false) && rootPaths == old(rootPaths)
      ensures canonical.Some? && canonical.value !in old(rootPaths) ==>
        r == Success(true) && rootPaths == old(rootPaths) + [canonical.value]
      ensures NoDuplicates(old(rootPaths)) ==> NoDuplicates(rootPaths)
    {
      if canonical.None? {
        return Failure(PathNotAccessible(expanded));
      }
      var path := canonical.value;
      if path in rootPaths {
        return Success(false);
      }
      rootPaths := rootPaths + [path];
      return Success(true);
    }

    /**
     * `remove_root_path`: the target is the canonical form of `expanded` when there
     * is one, else `expanded` itself. Every equal entry is dropped; the answer is
     * whether the list got shorter.
     */
    method RemoveRootPath(expanded: Path, canonical: Option<Path>) returns (removed: bool)
      modifies this`rootPaths
      ensures rootPaths == Without(old(rootPaths), canonical.GetOr(expanded))
      ensures removed <==> canonical.GetOr(expanded) in old(rootPaths)
      ensures NoDuplicates(old(rootPaths)) ==> NoDuplicates(rootPaths)
    {
      var target := canonical.GetOr(expanded);
      var originalLen := |rootPaths|;
      rootPaths := Without(rootPaths, target);
      WithoutShrinks(old(rootPaths), target);
      if NoDuplicates(old(rootPaths)) {
        WithoutDistinct(old(rootPaths), target);
      }
      removed := |rootPaths| < originalLen;
    }

    /** `set_editor`. */
    method SetEditor(e: string)
      modifies this`editor
      ensures editor == Some(e)
    {
      editor := Some(e);
    }

    /**
     * `get_editor`: the command-line choice, else the configured editor, else the
     * value of `EDITOR` (`env`, None when unset or not Unicode), else "code".
     */
    function GetEditor(cli: Option<string>, env: Option<string>): (r: string)
      reads this
      ensures r == FirstPresent([cli, editor, env], "code")
    {
      ghost var choices := [cli, editor, env];
      assert choices[0] == cli && choices[1] == editor && choices[2] == env;
      if cli.Some? then cli.value
      else if editor.Some? then editor.value
      else if env.Some? then env.value
      else "code"
    }
  }

  /**
   * The editor-priority test: with `EDITOR` unset the default is "code", a
   * configured editor wins over it, and a command-line editor wins over both.
   */
  method EditorPriorityScenario() returns (chosen: seq<string>)
    ensures chosen == ["code", "vim", "nvim"]
  {
    var config := new Config.Default();
    var byDefault := config.GetEditor(None, None);
    config.SetEditor("vim");
    var configured := config.GetEditor(None, None);
    var fromCli := config.GetEditor(Some("nvim"), None);
    chosen := [byDefault, configured, fromCli];
  }

  /** The add test: a new directory is added once; adding it again answers false and changes nothing. */
  method AddRootPathScenario(dir: Path) returns (first: Result<bool, ConfigError>, second: Result<bool, ConfigError>, lengths: seq<nat>)
    ensures first == Success(true) && second == Success(false) && lengths == [1, 1]
  {
    var config := new Config.Default();
    first := config.AddRootPath(dir, Some(dir));
    var afterFirst := |config.rootPaths|;
    second := config.AddRootPath(dir, Some(dir));
    lengths := [afterFirst, |config.rootPaths|];
  }

  /** The remove test: removing the one added directory reports a removal and leaves no roots. */
  method RemoveRootPathScenario(dir: Path) returns (removed: bool, remaining: nat)
    ensures removed && remaining == 0
  {
    var config := new Config.Default();
    var added := config.AddRootPath(dir, Some(dir));
    assert [dir][1..] == [];
    removed := config.RemoveRootPath(dir, Some(dir));
    remaining := |config.rootPaths|;
  }
}
