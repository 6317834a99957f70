/**
 * File-system paths as the scanner sees them: an absolute, canonical path is the
 * sequence of its normal components, and `[]` stands for the root directory `/`.
 * `Path::parent`, `Path::file_name` and `Path::join` become sequence operations.
 */
module Paths {
  import opened Wrappers

  type Component = string
  type Path = seq<Component>

  /** `Path::parent`: the path without its last component; the root has none. */
  function Parent(p: Path): (r: Option<Path>)
    ensures r.None? <==> p == []
    ensures r.Some? ==> |r.value| == |p| - 1 && IsStrictAncestor(r.value, p)
  {
    if p == [] then None else Some(p[..|p| - 1])
  }

  /** `Path::file_name`: the last component; the root has none. */
  function FileName(p: Path): (r: Option<Component>)
    ensures r.None? <==> p == []
    ensures r.Some? ==> p == Parent(p).value + [r.value]
  {
    if p == [] then None else Some(p[|p| - 1])
  }

  /** `Path::join` with a single component, as the marker check does. */
  function Join(dir: Path, name: Component): (r: Path)
    ensures Parent(r) == Some(dir) && FileName(r) == Some(name)
  {
    dir + [name]
  }

  /** `a` is a proper ancestor of `b`: one of `b`'s parents, grandparents, ... */
  predicate IsStrictAncestor(a: Path, b: Path) {
    |a| < |b| && a == b[..|a|]
  }

  /** `to_string_lossy` of an absolute path: `/` followed by the components joined with `/`. */
  function PathString(p: Path): string {
    if p == [] then "/" else Slashed(p)
  }

  function Slashed(p: Path): string {
    if p == [] then "" else "/" + p[0] + Slashed(p[1..])
  }
}
