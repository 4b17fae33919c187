/**
 * The filesystem as the hooks see it. Paths are absolute and normalised,
 * written as their components from the root; the directories and files that
 * exist are sets of such paths; and `resolve` gives the absolute path each
 * path string names (`realpath(expanduser(p))`, `abspath(p)`), which this
 * model takes as given rather than computes.
 */
module FileSystem {

  /** An absolute path: `[]` is `/`, `["tmp", "x"]` is `/tmp/x`. */
  type Path = seq<string>

  datatype Fs = Fs(dirs: set<Path>, files: set<Path>, resolve: string -> Path)

  /** `os.path.dirname` of an absolute path: the parent directory, where the
      root is its own parent. */
  function Dirname(p: Path): (r: Path)
    ensures p == [] <==> r == p
    ensures p != [] ==> |r| == |p| - 1 && IsAncestorOrSelf(r, p)
  {
    if p == [] then [] else p[..|p| - 1]
  }

  /** `q` is `p` or one of the directories above it. */
  predicate IsAncestorOrSelf(q: Path, p: Path) {
    |q| <= |p| && p[..|q|] == q
  }

  /** `os.path.isdir(p)` */
  predicate IsDir(fs: Fs, p: Path) {
    p in fs.dirs
  }

  /** `os.path.exists(p)` */
  predicate PathExists(fs: Fs, p: Path) {
    p in fs.dirs || p in fs.files
  }
}
