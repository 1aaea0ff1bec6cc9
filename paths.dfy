/**
 * Path arguments as the build scripts pass them to `path.resolve`: a path is
 * absolute or relative and is a sequence of names. Resolving a list of path
 * arguments from a base directory appends each relative one and restarts at
 * each absolute one. `..`, `.` and separators are not interpreted.
 */
module Paths {
  import opened FsTree

  datatype PathSpec = PathSpec(absolute: bool, segments: seq<string>)

  function Relative(segments: seq<string>): PathSpec
  {
    PathSpec(false, segments)
  }

  function Absolute(p: Path): PathSpec
  {
    PathSpec(true, p)
  }

  /** `path.resolve(base, ...parts)` */
  function Resolve(base: Path, parts: seq<PathSpec>): Path
    decreases parts
  {
    if parts == [] then base
    else Resolve(if parts[0].absolute then parts[0].segments else base + parts[0].segments, parts[1..])
  }

  /** `s.endsWith(suffix)` */
  predicate EndsWith(s: string, suffix: string)
  {
    |suffix| <= |s| && s[|s| - |suffix|..] == suffix
  }

  /** Resolving an absolute path ignores the base; a relative one is appended to it. */
  lemma ResolveOne(base: Path, part: PathSpec)
    ensures Resolve(base, [part]) == if part.absolute then part.segments else base + part.segments
  {
  }

  lemma ResolveTwo(base: Path, first: PathSpec, second: PathSpec)
    ensures Resolve(base, [first, second]) == Resolve(Resolve(base, [first]), [second])
  {
    assert [first, second][1..] == [second];
  }
}
