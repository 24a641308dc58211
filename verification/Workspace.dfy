/** The values exchanged by workspace synchronization: file states, manifests, patches, and a
    directory tree with real directories, so that collisions and emptied parents are visible. */
module Workspace {
  import opened Options

  /** A workspace path as its components, relative to the synchronized root. */
  type Path = seq<string>

  newtype Byte = x: int | 0 <= x < 256

  /** Content and mode of one regular file; a digest is identified with the content it names. */
  datatype FileState = FileState(body: seq<Byte>, mode: nat)

  /** A manifest, which is also what a full workspace archive holds. */
  type Tree = map<Path, FileState>

  function At(tree: Tree, path: Path): Option<FileState> {
    if path in tree then Some(tree[path]) else None
  }

  function Put(tree: Tree, path: Path, state: Option<FileState>): Tree {
    match state
    case None => tree - {path}
    case Some(file) => tree[path := file]
  }

  /** One conditional path transition of a patch. */
  datatype Operation = Operation(path: Path, before: Option<FileState>, after: Option<FileState>)

  type Patch = seq<Operation>

  ghost predicate DistinctPaths(patch: Patch) {
    forall i, j :: 0 <= i < j < |patch| ==> patch[i].path != patch[j].path
  }

  ghost predicate Effective(patch: Patch) {
    forall i :: 0 <= i < |patch| ==> patch[i].before != patch[i].after
  }

  /** What decoding a patch guarantees about it; anything else is rejected as malformed. */
  ghost predicate WellFormed(patch: Patch) {
    patch != [] && DistinctPaths(patch) && Effective(patch)
  }

  function PathsOf(patch: Patch): set<Path> {
    set i | 0 <= i < |patch| :: patch[i].path
  }

  /** `p` is a proper path prefix of `q`: `p` would have to be a directory for `q` to exist. */
  predicate Above(p: Path, q: Path) {
    |p| < |q| && p == q[..|p|]
  }

  ghost predicate PrefixFree(patch: Patch) {
    forall i, j :: 0 <= i < |patch| && 0 <= j < |patch| ==> !Above(patch[i].path, patch[j].path)
  }

  // ------------------------------------------------------------------ directory tree

  /** The root directory: regular files, directories below the root, and links or other entries
      that a manifest cannot see. */
  datatype Fs = Fs(files: Tree, dirs: set<Path>, specials: set<Path>) {

    predicate Exists(p: Path) {
      p in files || p in dirs || p in specials
    }

    /** Some parent of `p` is a file or a link, so nothing can be created or removed below it. */
    predicate Blocked(p: Path) {
      exists i :: 0 < i < |p| && (p[..i] in files || p[..i] in specials)
    }

    predicate CanWrite(p: Path) {
      !Blocked(p) && p !in dirs && p !in specials
    }

    predicate CanDelete(p: Path) {
      !Blocked(p) && p !in dirs
    }

    predicate Occupied(d: Path) {
      exists q :: q in files.Keys + dirs + specials && |q| == |d| + 1 && q[..|d|] == d
    }

    /** Atomic replacement through a sibling temporary file, creating the missing parents. */
    function Write(p: Path, file: FileState): Fs {
      Fs(files[p := file], dirs + (set i | 0 < i < |p| :: p[..i]), specials)
    }

    /** Removal of `d` and of every parent it leaves empty, stopping at the root. */
    function RemoveEmptyParents(d: Path): Fs
      decreases |d|
    {
      if d == [] || d !in dirs || Occupied(d) then this
      else this.(dirs := dirs - {d}).RemoveEmptyParents(d[..|d| - 1])
    }

    function Delete(p: Path): Fs {
      var removed := this.(files := files - {p}, specials := specials - {p});
      if p == [] then removed else removed.RemoveEmptyParents(p[..|p| - 1])
    }
  }

  /** Entry kinds are disjoint and every entry hangs below directories. */
  ghost predicate WellFormedFs(fs: Fs) {
    && fs.files.Keys !! fs.dirs && fs.files.Keys !! fs.specials && fs.dirs !! fs.specials
    && (forall p, i {:trigger p[..i]} :: fs.Exists(p) && 0 < i < |p| ==> p[..i] in fs.dirs)
    && !fs.Exists([])
  }
}
