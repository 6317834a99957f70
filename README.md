# quick-proj core, modelled in Dafny

quick-proj is a command-line tool for finding development projects on disk and
opening one of them in an editor. This project models its core in Dafny:

- **Configuration** (`config.dfy`, module `Config`). The search roots, the preferred
  editor, the scan depth, the marker names and the excluded directory names are the
  fields of a `class Config`. Adding a root refuses duplicates and reports whether
  anything was added. Removing a root drops every equal entry. The editor choice
  follows the priority command line, then configuration, then `EDITOR`, then `code`.
- **Scanner** (`scanner.dfy`, module `Scanner`). Each root is walked up to the depth
  bound. A walked directory is reported as a project when all of these hold:
  - it is not an excluded name;
  - it is not below a project already reported for that root;
  - it contains one of the marker files or directories.

  The roots' lists are merged so that each path is kept once, with the first
  project seen for it. The merged list is then sorted by lower-cased name. The
  query filter keeps the projects whose lower-cased name or path contains every
  white-space-separated term of the lower-cased query.
- **Launcher** (`launcher.dfy`, module `Launcher`). An editor name is lower-cased
  and looked up in a fixed alias table; an unknown name is used as typed.

Supporting modules:

- `paths.dfy`: an absolute path is the sequence of its components.
- `text.dfy`: lower-casing, white-space splitting, substring search and string ordering.
- `collections.dfy`: sequence facts.
- `wrappers.dfy`: `Option` and `Result`.
- `scanner_tests.dfy`: restates the scanner's tests, over directory trees given as values.

How the model is shaped:

- **File system.** The scanner reaches the file system through a `FileSystem` value:
  - the set of existing paths;
  - the set of directories;
  - the walk the ignore-aware walker yields for a root and a depth.
- **Unordered iteration.** Marker detection tries the markers in an unspecified
  order, as iteration over a hash set does. Its contract therefore says only
  that the marker found is one that exists.
- **Parallel scan.** The parallel scan of the roots becomes a loop. The loop
  takes the pending roots in an unspecified order and runs the locked merge
  step for each one. Its contract holds for every such order:
  - the result is sorted by name;
  - no path appears twice;
  - every entry is a detected project;
  - its set of paths is exactly the union of the roots' reports, whatever the order.
- **Excluded directories.** An excluded directory name only keeps that one
  directory from being reported. The walker is built without the exclusion list
  (src/scanner.rs:101-108), so the walk still descends into an excluded directory
  and a project below `node_modules` is found
  (`ScannerTests.ExcludedDirDescendantScenario`).

## Model

| member | source | states |
|---|---|---|
| Paths.Parent | src/scanner.rs:164-169 | the root has no parent; any other path's parent is one component shorter and a strict ancestor of it |
| Paths.FileName | src/scanner.rs:132-136 | the root has no file name; any other path is its parent joined with its file name |
| Paths.Join | src/scanner.rs:154 | the joined path has `dir` as its parent and the marker name as its file name |
| Paths.PathString | src/scanner.rs:189 | the text matched by the filter: `/` for the root, else each component preceded by `/`; `ScannerTests.NodeAppPathString` evaluates it on the filter test's path |
| Text.Lower | src/scanner.rs:188-189 | lower-casing keeps the length and lowers each ASCII capital, leaving every other character alone |
| Text.LowerIdempotent | src/scanner.rs:86 | lower-casing a lower-cased string changes nothing |
| Text.SplitWhitespace | src/scanner.rs:183 | every part is a non-empty run without white space; there are no parts exactly when the text is all white space |
| Text.SplitUnwords | src/scanner.rs:183 | splitting words joined by single spaces gives the same words back |
| Text.SplitSkipsBlank | src/scanner.rs:183 | leading white space yields no part |
| Text.SplitInterleaved | src/scanner.rs:183 | a text made of words separated by non-empty white-space runs, with any white space before and after, splits into exactly those words in order |
| Text.ContainsAt | src/scanner.rs:193 | `contains` holds exactly when the needle is the slice of the text at some offset |
| Text.MissingCharNotContained | src/scanner.rs:193 | a needle holding a character absent from the text does not occur in it |
| Text.LexLeReflexive | src/scanner.rs:86 | the name order relates every string to itself |
| Text.LexLeTotal | src/scanner.rs:86 | any two strings are ordered one way or the other |
| Text.LexLeTransitive | src/scanner.rs:86 | the name order is transitive |
| Text.LexLeAntisymmetric | src/scanner.rs:86 | strings ordered both ways are equal |
| Config.DefaultProjectMarkers | src/config.rs:45-62 | fourteen marker names, none listed twice |
| Config.DefaultExcludeDirs | src/config.rs:64-78 | eleven directory names, none listed twice |
| Config.DefaultMaxDepth | src/config.rs:41-43 | the default depth bound, 4; `Config.Config.Default` states it as the new configuration's depth |
| Config.DefaultsInclude | src/config.rs:45-78 | `.git`, `Cargo.toml` and `package.json` are default markers; `node_modules` and `target` are excluded by default |
| Config.Config.Default | src/config.rs:80-90 | no roots, no editor, depth 4, the default markers (with `.git`) and exclusions; this is what the default-config test checks (src/config.rs:207-213) |
| Config.Without | src/config.rs:163 | the kept entries are exactly the entries different from the target, and there are no more of them than before |
| Config.WithoutShrinks | src/config.rs:162-165 | the list gets shorter exactly when the target was in it, and is unchanged otherwise |
| Config.WithoutConcat | src/config.rs:163 | removal commutes with concatenation, so the remaining roots keep their order |
| Config.WithoutDistinct | src/config.rs:163 | dropping entries keeps a list without repeats without repeats |
| Config.FirstPresent | src/config.rs:174-192 | the first present choice wins, and the fallback is used only when none is present |
| Config.Config.AddRootPath | src/config.rs:140-153 | a path that cannot be canonicalised fails and changes nothing; a known one answers false and changes nothing; a new one is appended and answers true; a list without repeats stays without repeats |
| Config.Config.RemoveRootPath | src/config.rs:156-166 | the new list is the old one without the target (canonical form, else expanded path), the answer is whether the target was listed, and a list without repeats stays without repeats |
| Config.Config.SetEditor | src/config.rs:169-171 | the configured editor becomes the given name |
| Config.Config.GetEditor | src/config.rs:174-192 | the editor is the first present of command line, configuration, `EDITOR`, falling back to `code` |
| Config.EditorPriorityScenario | src/config.rs:244-257 | with `EDITOR` unset: `code` by default, then the configured `vim`, then the command-line `nvim` |
| Config.AddRootPathScenario | src/config.rs:215-229 | adding a directory gives `Ok(true)` with one root; adding it again gives `Ok(false)` and still one root |
| Config.RemoveRootPathScenario | src/config.rs:231-242 | removing the one added directory answers true and leaves no roots |
| Scanner.FromConfig | src/scanner.rs:52-58 | the scanner's marker and exclusion sets hold exactly the configured names, and the depth is copied |
| Scanner.UnderProjectMeans | src/scanner.rs:163-172 | being under a visited project means some visited path is a strict ancestor |
| Scanner.DetectMarker | src/scanner.rs:152-160 | a found marker is configured and exists inside the directory; nothing is found exactly when no configured marker exists there |
| Scanner.IsUnderProject | src/scanner.rs:163-172 | the answer is true exactly when some strict ancestor of the path (parent up to `/`) is in the visited set |
| Scanner.NameOf | src/scanner.rs:132-136 | the project name: the last path component, or `unknown` for `/`; `Scanner.ScanRoot` states that every project carries it |
| Scanner.Report | src/scanner.rs:110-146 | the paths one pass over a walk reports; `Scanner.ReportSound`, `Scanner.ReportComplete`, `Scanner.ReportNoNesting` and `Scanner.ReportCharacterization` state what it keeps |
| Scanner.RootReport | src/scanner.rs:92-149 | a missing root reports nothing, an existing one reports its walk; `Scanner.ScanRoot` is proved equal to it and `Scanner.RootReportWithinRoot` bounds it |
| Scanner.ScanRoot | src/scanner.rs:92-149 | a missing root gives no projects; otherwise the projects' paths are the root's report over the walk, and each is a detected project (directory, not excluded, named after its last component, with an existing configured marker) |
| Scanner.ReportSound | src/scanner.rs:113-145 | every reported path was walked, is a directory, is not excluded and holds a marker |
| Scanner.ReportPrefix | src/scanner.rs:110-146 | the report for a prefix of the walk is a prefix of the full report |
| Scanner.ReportNotInsideEarlier | src/scanner.rs:125-128 | no reported path lies below a path reported before it |
| Scanner.ReportNoNesting | src/scanner.rs:125-128 | when the walk yields ancestors first, no two reported paths are nested at all |
| Scanner.ReportComplete | src/scanner.rs:110-146 | a walked, qualifying directory below no reported project is reported |
| Scanner.ReportCharacterization | src/scanner.rs:110-146 | with ancestors walked first, a path is reported exactly when it is walked, qualifies and lies below no reported path |
| Scanner.ReportNoDuplicates | src/scanner.rs:138-144 | a walk without repeats gives a report without repeats |
| Scanner.RootReportWithinRoot | src/scanner.rs:101-102 | every reported path lies at or below the root, within the depth bound |
| Scanner.Dedup | src/scanner.rs:71-76 | the first-path-wins merge; `Scanner.DedupProperties`, `Scanner.DedupKeepsFirst` and `Scanner.DedupKeepsOnlyFirst` state what it keeps |
| Scanner.DedupProperties | src/scanner.rs:71-76 | the merge keeps every path, keeps each path once and keeps only given projects |
| Scanner.DedupKeepsFirst | src/scanner.rs:71-76 | the first project with each path survives the merge |
| Scanner.DedupKeepsOnlyFirst | src/scanner.rs:71-76 | the project kept for a path is the first one with that path |
| Scanner.DedupOfDistinct | src/scanner.rs:71-76 | merging projects with distinct paths changes nothing |
| Scanner.DedupAbsorbs | src/scanner.rs:66-78 | projects whose paths were all merged already add nothing |
| Scanner.ScanSameRootTwice | src/scanner.rs:61-89 | listing a root twice gives the result of listing it once |
| Scanner.InsertPermutes | src/scanner.rs:86 | inserting adds exactly the one project |
| Scanner.InsertSorted | src/scanner.rs:86 | inserting into a sorted list keeps it sorted |
| Scanner.InsertKeepsKeyOrder | src/scanner.rs:86 | inserting keeps the order among projects with equal keys, the new one last |
| Scanner.SortByName | src/scanner.rs:86 | the stable sort by lower-cased name; `Scanner.SortByNameCorrect` states that it is sorted, a permutation and stable |
| Scanner.SortByNameCorrect | src/scanner.rs:86 | the sort orders by lower-cased name, is a permutation, and is stable |
| Scanner.InsertDistinct | src/scanner.rs:86 | inserting a project with a new path keeps paths distinct |
| Scanner.SortByNameDistinct | src/scanner.rs:86 | sorting keeps paths distinct |
| Scanner.ConcatMembers | src/scanner.rs:66-78 | a project is in the merged input exactly when one of the roots' lists holds it |
| Scanner.MergedPaths | src/scanner.rs:61-89 | in any root order, the merged paths are exactly the union of the roots' reports |
| Scanner.ConcatAllDetected | src/scanner.rs:66-78 | every project fed to the merge is a detected project |
| Scanner.MergeRoot | src/scanner.rs:68-76 | the locked section appends a root's projects as the first-path-wins merge does, and keeps the seen set equal to the merged paths |
| Scanner.ScanResult | src/scanner.rs:80-88 | the sorted merge is sorted, has distinct paths, holds detected projects only, and its paths are the union of the roots' reports |
| Scanner.Scan | src/scanner.rs:61-89 | every root is scanned once in some order; the result is the sorted first-path-wins merge of their lists, sorted by name, with distinct paths, detected projects only, and exactly the paths reported for some root |
| Scanner.KeepMatching | src/scanner.rs:185-196 | a project is kept exactly when it is in the list and matches every term, and the list does not grow |
| Scanner.FilterProjects | src/scanner.rs:177-197 | the empty query keeps the list as is; otherwise a project is kept exactly when it matches every term of the lower-cased query |
| Scanner.KeepMatchingConcat | src/scanner.rs:185-196 | filtering commutes with concatenation |
| Scanner.FilterKeepsOrder | src/scanner.rs:177-197 | the filtered list keeps the input order |
| Scanner.KeepMatchingAll | src/scanner.rs:192-194 | when every project matches, filtering keeps the whole list |
| Scanner.BlankQueryKeepsAll | src/scanner.rs:182-183 | a non-empty query of white space only has no terms and keeps every project |
| ScannerTests.NestedProjectScenario | src/scanner.rs:232-248 | with `parent/.git` and `parent/child/Cargo.toml`, the report for the root is just `parent` |
| ScannerTests.NestedScanScenario | src/scanner.rs:232-248 | the scan of that tree finds one project, named `parent` |
| ScannerTests.SiblingProjectsScenario | src/scanner.rs:216-230 | with three sibling projects, each marked by a different marker, all three are reported in walk order |
| ScannerTests.SiblingScanScenario | src/scanner.rs:216-230 | the scan of that tree finds three projects |
| ScannerTests.ExcludedDirDescendantScenario | src/scanner.rs:118-128 | `node_modules` itself is skipped but `node_modules/fake-project` is reported |
| ScannerTests.SingleRootScanCount | src/scanner.rs:61-89 | scanning a single root whose report has no repeats lists as many projects as the report has |
| ScannerTests.FilterScenario | src/scanner.rs:250-273 | the query `rust` keeps only the Rust project and the empty query keeps both |
| Launcher.Lookup | src/launcher.rs:67-71 | nothing is found exactly when no row has the alias; otherwise the result is the first command of the first matching row |
| Launcher.EditorAliases | src/launcher.rs:10-28 | the seventeen alias rows in the source's order; `Launcher.EditorAliasesWellFormed` and `Launcher.AliasesDistinct` state their shape |
| Launcher.New | src/launcher.rs:38-42 | the launcher holds the given editor name |
| Launcher.EditorAliasesWellFormed | src/launcher.rs:10-28 | seventeen rows, every alias non-empty, every command list non-empty |
| Launcher.AliasesDistinct | src/launcher.rs:10-28 | no alias is listed twice |
| Launcher.MatchIsFirst | src/launcher.rs:10-28 | since aliases are distinct, a row with the alias is the first such row |
| Launcher.ResolveEditor | src/launcher.rs:63-75 | a name whose lower-cased form matches no alias is returned unchanged; otherwise the result is the first command of the first matching row |
| Launcher.ResolveByAlias | src/launcher.rs:64-70 | a name whose lower-cased form is row `i`'s alias resolves to row `i`'s first command |
| Launcher.CommandsResolveToThemselves | src/launcher.rs:10-28 | every command in the table resolves to itself |
| Launcher.ResolveIdempotent | src/launcher.rs:63-75 | resolving an already resolved name changes nothing |
| Launcher.ResolveIgnoresCase | src/launcher.rs:64-69 | names that lower-case alike and name an alias resolve alike |
| Launcher.ResolveVscode | src/launcher.rs:123-125 | `vscode` resolves to `code` |
| Launcher.ResolveNeovim | src/launcher.rs:127-128 | `neovim`, and `NeoVim` too, resolve to `nvim` |
| Launcher.ResolveNoAliasExamples | src/launcher.rs:131-135 | `my-custom-editor` comes back unchanged, and so does `My-Custom-Editor` with its capitals |

## Left out

- The directory walk itself is an input, the `walk` field of `FileSystem`, produced by the `ignore` crate:
  - `.gitignore` rules;
  - the depth bound;
  - hidden entries;
  - not following links;
  - dropping unreadable entries.

  `Scanner.RootReportWithinRoot` and `Scanner.ReportCharacterization` state what the report guarantees when the walk has the expected shape.
- `Path::exists` and `Path::is_dir` are the `existing` and `dirs` sets. Later changes to the disk are not modelled.
- Concurrency: the parallel scan becomes a loop over the roots in an unspecified order, and the mutex section is the body of `Scanner.MergeRoot`.
  - A failing `scan_root` is not modelled, because it never returns an error.
  - Lock poisoning is not modelled.
- Scanner.DetectMarker: states only that some existing configured marker is chosen. Hash-set iteration order is unspecified, so which one is not determined.
- Paths are sequences of normal components. `.` and `..`, relative paths, symbolic links, non-UTF-8 names, and the lossy conversion used for display and matching are not modelled. A directory whose name is not valid UTF-8 is never excluded in the source; every name here is a string.
- Marker names are joined as a single component. A marker containing `/` is not modelled.
- Text.Lower: lowers ASCII letters only. Rust's `to_lowercase` also lowers non-ASCII letters, and can change the string's length.
- Scanner.SortByName: the in-place `sort_by` on a vector is modelled as a stable insertion sort on a sequence value. `String::cmp` compares UTF-8 bytes, which orders like the code points compared here.
- `Config::load`, `Config::save`, `Config::config_path`, the TOML format and serde defaults for missing fields (src/config.rs:93-137): file I/O and serialisation.
- `expand_path` (src/config.rs:195-200) and `fs::canonicalize` are not modelled. Their results are the `expanded` and `canonical` parameters of `Config.Config.AddRootPath` and `Config.Config.RemoveRootPath`. The `~` expansion test is left out with them.
- Config.Config.RemoveRootPath: returns the answer as a plain boolean. The source's `Result` can never be an error, because `expand_path` always succeeds.
- `std::env::var("EDITOR")` is the `env` parameter of `Config.Config.GetEditor`.
- `Launcher::launch`, `check_editor_available` and `get_available_editors` (src/launcher.rs:45-116) are left out: they spawn processes and run `which` or `where`.
- `Project::display_string` and `short_display` (src/scanner.rs:29-37) are left out: they only format text.
- `main.rs`, `cli.rs` and `ui.rs` are not part of this model.
