/** The file system as the packager's scripts see it: a store of regular files
    (path to content) and directories, and the triples `os.walk` yields. The
    listing itself is a foreign call, so a walk is handed to the operations
    that iterate over one. */
module FileSystem {
  import opened Strings
  import opened PosixPath

  datatype Store = Store(files: map<Path, string>, dirs: set<Path>) {
    /** No path is both a regular file and a directory. */
    predicate Valid() {
      files.Keys !! dirs
    }
  }

  /** A path with its trailing separators removed (the root stays "/"); the
      store keeps directory paths in this form. */
  function Norm(p: Path): (r: Path)
    ensures p != [] ==> r != []
  {
    var s := RStripSlashes(p);
    if s == [] && p != [] then "/" else s
  }

  /** `os.path.isfile`. */
  predicate IsFile(fs: Store, p: Path) {
    p in fs.files
  }

  /** `os.path.isdir`. */
  predicate IsDir(fs: Store, p: Path) {
    Norm(p) in fs.dirs
  }

  /** `os.path.exists`. */
  predicate Exists(fs: Store, p: Path) {
    IsFile(fs, p) || IsDir(fs, p)
  }

  /** The directories on the way to `p`: the part of `p` before each
      separator that is not its first character, in stored form. */
  function Ancestors(p: Path): set<Path> {
    set i | 0 < i < |p| && p[i] == '/' :: Norm(p[..i])
  }

  /** `os.makedirs(p)` on a path that does not exist yet: `p` and every
      directory on the way to it. */
  function MakeDirs(fs: Store, p: Path): (r: Store)
    requires !Exists(fs, p)
    ensures r.files == fs.files && r.dirs == fs.dirs + Ancestors(p) + {Norm(p)}
    ensures IsDir(r, p)
  {
    Store(fs.files, fs.dirs + Ancestors(p) + {Norm(p)})
  }

  /** After `makedirs(p)`, the part of `p` before any of its separators (but a
      leading one) is a directory. */
  lemma {:induction false} MakeDirsParent(fs: Store, p: Path, i: nat)
    requires !Exists(fs, p)
    requires 0 < i < |p| && p[i] == '/'
    ensures IsDir(MakeDirs(fs, p), p[..i])
  {
    assert Norm(p[..i]) in Ancestors(p);
  }

  /** Every directory `makedirs` creates has all its own ancestors among the
      directories it creates. */
  lemma {:induction false} MadeDirsClosed(p: Path)
    ensures forall q :: q in Ancestors(p) + {Norm(p)} ==> Ancestors(q) <= Ancestors(p)
  {
    forall q | q in Ancestors(p) + {Norm(p)} ensures Ancestors(q) <= Ancestors(p) {
      if q == Norm(p) {
        assert p[..|p|] == p;
        AncestorsOfNormPrefix(p, |p|);
      } else {
        var i :| 0 < i < |p| && p[i] == '/' && q == Norm(p[..i]);
        AncestorsOfNormPrefix(p, i);
      }
    }
  }

  /** The ancestors of a stored prefix of `p` are ancestors of `p`. */
  lemma {:induction false} AncestorsOfNormPrefix(p: Path, m: nat)
    requires m <= |p|
    ensures Ancestors(Norm(p[..m])) <= Ancestors(p)
  {
    var s := p[..m];
    var r := RStripSlashes(s);
    if r == [] && s != [] {
      assert Norm(s) == "/";
    } else {
      assert Norm(s) == r == p[..|r|];
      AncestorsOfPrefix(p, |r|);
    }
  }

  lemma {:induction false} AncestorsOfPrefix(p: Path, m: nat)
    requires m <= |p|
    ensures Ancestors(p[..m]) <= Ancestors(p)
  {
    forall q | q in Ancestors(p[..m]) ensures q in Ancestors(p) {
      var i :| 0 < i < m && p[..m][i] == '/' && q == Norm(p[..m][..i]);
      assert p[..m][..i] == p[..i];
    }
  }

  /** What a regular file holds. */
  function Content(fs: Store, p: Path): string
    requires IsFile(fs, p)
  {
    fs.files[p]
  }

  /** A file's size in bytes: each character of its content is one byte. */
  function Size(fs: Store, p: Path): nat
    requires IsFile(fs, p)
  {
    |fs.files[p]|
  }

  /** One `(dirpath, dirnames, filenames)` triple of `os.walk`. */
  datatype WalkStep = WalkStep(path: Path, dirnames: seq<string>, filenames: seq<string>)

  /** The walks `os.walk(root)` (top-down) can yield over a store `fs` that
      keeps files and directories apart: nothing when
      `root` is not a directory; otherwise `root` itself first, then only
      directories below it, each listing names of regular files. The order
      of the steps and of the names stays free. */
  ghost predicate WalkOf(fs: Store, root: Path, walk: seq<WalkStep>) {
    && fs.Valid()
    && (!IsDir(fs, root) ==> walk == [])
    && (IsDir(fs, root) ==> walk != [] && walk[0].path == root)
    && (forall k :: 0 <= k < |walk| ==> IsDir(fs, walk[k].path))
    && (forall k :: 0 <= k < |walk| ==> walk[k].path == root || StartsWith(walk[k].path, JoinPrefix(root)))
    && (forall k, name :: 0 <= k < |walk| && name in walk[k].filenames ==> IsFile(fs, Join(walk[k].path, name)))
  }

  /** Python's slice `s[n:]`, which is empty when `n` is past the end. */
  function SliceFrom(s: string, n: nat): (r: string)
    ensures n <= |s| ==> r == s[n..]
    ensures n >= |s| ==> r == []
  {
    if n <= |s| then s[n..] else []
  }
}
