/** Filesystem paths as sequences of segments (what `path.join` builds from
    the working directory and literal sub-paths), and the lookups the model
    needs on them. */
module Paths {

  datatype Option<T> = None | Some(value: T)

  type Path = seq<string>

  /** The directories `mkdirSync(p, { recursive: true })` leaves in place:
      every non-empty prefix of `p`. */
  function Ancestry(p: Path): (r: set<Path>)
    ensures p != [] ==> p in r
    ensures forall k :: 1 <= k <= |p| ==> p[..k] in r
    ensures forall q :: q in r ==> 0 < |q| <= |p| && q == p[..|q|]
  {
    var r := set k | 1 <= k <= |p| :: p[..k];
    assert p != [] ==> p[..|p|] == p && p[..|p|] in r;
    r
  }

  /** `p` lies strictly below directory `dir`. */
  predicate Below(p: Path, dir: Path) {
    |dir| < |p| && p[..|dir|] == dir
  }

  /** The directory holding `p`. */
  function Parent(p: Path): Path
    requires |p| > 0
  {
    p[..|p| - 1]
  }

  /** `p` with `ext` appended to its last segment. */
  function WithExtension(p: Path, ext: string): (r: Path)
    requires |p| > 0
    ensures |r| == |p| && Parent(r) == Parent(p) && r[|p| - 1] == p[|p| - 1] + ext
  {
    Parent(p) + [p[|p| - 1] + ext]
  }
}
