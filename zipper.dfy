/** Zipping a bundled directory (`to_zip`): the archive path, the names the
    entries get inside the archive, the default list of what to store, and
    the kind of each entry. The archive itself is a foreign library, so an
    archive is modelled as its path and the sequence of entries written. */
module Zipper {
  import opened Wrappers
  import opened Strings
  import opened PosixPath
  import opened FileSystem

  /** What is stored for one listed path: a directory as its name with a
      trailing separator and no content, a file under its name with its
      content. */
  datatype ZipEntry = DirEntry(name: Path) | FileEntry(name: Path, content: string)

  datatype Archive = Archive(path: Path, entries: seq<ZipEntry>)

  /** The OSError raised for a path that is not a directory, and the one
      `write` raises for a listed path that does not exist. */
  datatype ZipError = NotADirectory(path: Path) | MissingFile(path: Path)

  /** The archive path: the given one, or, when none or an empty one is
      given, the directory's path with ".zip" appended. */
  function ZipPathFor(dirPath: Path, zipFilePath: Option<Path>): Path {
    if zipFilePath.Some? && zipFilePath.value != [] then zipFilePath.value else dirPath + ".zip"
  }

  /** A directory path without a trailing separator gets its archive beside
      it: same parent, name plus ".zip". */
  lemma {:induction false} DefaultZipPathIsSibling(dirPath: Path)
    requires dirPath != [] && dirPath[|dirPath| - 1] != '/'
    ensures Split(ZipPathFor(dirPath, None)) == (Split(dirPath).0, Split(dirPath).1 + ".zip")
  {
    var z := dirPath + ".zip";
    var n := TailStart(dirPath);
    assert z[..n] == dirPath[..n];
    assert z[n..] == dirPath[n..] + ".zip";
    TailStartAt(z, n);
  }

  // ---------------------------------------------------------------------------
  // trim_path

  /** The name of `path` inside the archive: the first occurrence of the
      parent directory removed, then (when there is a parent) the first
      separator, then (when the directory's own name is not wanted) the first
      occurrence of that name and a separator. `normcase` is the identity on
      POSIX. */
  function TrimPath(path: Path, parentDir: Path, dirToZip: Path, includeDir: bool): Path {
    var a := ReplaceFirst(path, parentDir, "");
    var b := if parentDir != [] then ReplaceFirst(a, "/", "") else a;
    if includeDir then b else ReplaceFirst(b, dirToZip + "/", "")
  }

  /** Removing a pattern the string starts with removes that prefix. */
  lemma {:induction false} ReplaceFirstAtStart(s: string, pat: string)
    requires StartsWith(s, pat)
    ensures ReplaceFirst(s, pat, "") == s[|pat|..]
  {
    assert OccursAt(s, pat, 0);
    assert Find(s, pat) == Some(0);
  }

  /** Under a parent that does not end with a separator, a path
      `parent/dir/rest` is stored as `dir/rest`, or as `rest` without the
      directory's name. */
  lemma {:induction false} TrimUnderParent(parentDir: Path, dirToZip: Path, rest: Path)
    requires parentDir == [] || parentDir[|parentDir| - 1] != '/'
    ensures var path := JoinPrefix(parentDir) + dirToZip + "/" + rest;
      && TrimPath(path, parentDir, dirToZip, true) == dirToZip + "/" + rest
      && TrimPath(path, parentDir, dirToZip, false) == rest
  {
    var inner := dirToZip + "/" + rest;
    var path := JoinPrefix(parentDir) + inner;
    assert path == JoinPrefix(parentDir) + dirToZip + "/" + rest;
    var b := inner;
    if parentDir != [] {
      assert path == parentDir + ("/" + inner);
      ReplaceFirstAtStart(path, parentDir);
      assert ReplaceFirst(path, parentDir, "") == "/" + inner;
      ReplaceFirstAtStart("/" + inner, "/");
      assert ("/" + inner)[1..] == inner;
    } else {
      ReplaceFirstAtStart(path, parentDir);
    }
    assert TrimPath(path, parentDir, dirToZip, true) == inner;
    ReplaceFirstAtStart(inner, dirToZip + "/");
    assert inner[|dirToZip + "/"|..] == rest;
  }

  /** Removing the first occurrence of a pattern, when it is at `i`. */
  lemma {:induction false} ReplaceFirstAt(s: string, pat: string, i: nat)
    requires OccursAt(s, pat, i)
    requires forall j: nat :: j < i ==> !OccursAt(s, pat, j)
    ensures ReplaceFirst(s, pat, "") == s[..i] + s[i + |pat|..]
  {
    assert Find(s, pat).value == i;
  }

  /** The first separator of `dir/rest`, for a name without separators, is
      the one after the name. */
  lemma {:induction false} DropSeparatorAfter(dir: Path, rest: Path)
    requires '/' !in dir
    ensures ReplaceFirst(dir + "/" + rest, "/", "") == dir + rest
  {
    var inner := dir + "/" + rest;
    assert OccursAt(inner, "/", |dir|);
    forall j: nat | j < |dir| ensures !OccursAt(inner, "/", j) {
      assert inner[j] == dir[j];
    }
    ReplaceFirstAt(inner, "/", |dir|);
    assert inner[..|dir|] == dir && inner[|dir| + 1..] == rest;
  }

  /** A directory right under the root has "/" as its parent, and the
      separator removal then takes the one after the directory's name:
      `/dir/rest` is stored as `dirrest`. */
  lemma {:induction false} TrimUnderRoot(dirToZip: Path, rest: Path)
    requires '/' !in dirToZip
    ensures TrimPath("/" + dirToZip + "/" + rest, "/", dirToZip, true) == dirToZip + rest
  {
    var inner := dirToZip + "/" + rest;
    var path := "/" + dirToZip + "/" + rest;
    assert ReplaceFirst(path, "/", "") == inner by {
      assert path == "/" + inner;
      ReplaceFirstAtStart(path, "/");
      assert path[1..] == inner;
    }
    DropSeparatorAfter(dirToZip, rest);
    assert TrimPath(path, "/", dirToZip, true) == ReplaceFirst(ReplaceFirst(path, "/", ""), "/", "");
  }

  // ---------------------------------------------------------------------------
  // The default file list

  /** The paths of `names` under `dir`, in order. */
  function NamesUnder(dir: Path, names: seq<string>): (r: seq<Path>)
    ensures |r| == |names|
  {
    if names == [] then [] else NamesUnder(dir, names[..|names| - 1]) + [Join(dir, names[|names| - 1])]
  }

  /** What one walked directory adds: its files, then the directory itself
      when it has neither files nor subdirectories. */
  function StepFileList(step: WalkStep): seq<Path> {
    NamesUnder(step.path, step.filenames) + (if step.filenames == [] && step.dirnames == [] then [step.path] else [])
  }

  /** The default file list: every file in walk order plus every empty leaf
      directory. */
  function DefaultFileList(walk: seq<WalkStep>): seq<Path> {
    if walk == [] then [] else DefaultFileList(walk[..|walk| - 1]) + StepFileList(walk[|walk| - 1])
  }

  /** The list that is stored: the given one, or the default when none or an
      empty one is given. */
  function FileListFor(filelist: Option<seq<Path>>, walk: seq<WalkStep>): seq<Path> {
    if filelist.None? || filelist.value == [] then DefaultFileList(walk) else filelist.value
  }

  /** Every walked directory contributes its files in listing order, and an
      empty leaf directory contributes itself: nothing else is listed. */
  lemma {:induction false} DefaultFileListSize(walk: seq<WalkStep>)
    ensures |DefaultFileList(walk)| == FileCount(walk)
  {
    if walk != [] {
      DefaultFileListSize(walk[..|walk| - 1]);
    }
  }

  /** The number of files and empty leaf directories a walk reports. */
  function FileCount(walk: seq<WalkStep>): nat {
    if walk == [] then 0
    else
      var last := walk[|walk| - 1];
      FileCount(walk[..|walk| - 1]) + |last.filenames| + (if last.filenames == [] && last.dirnames == [] then 1 else 0)
  }

  // ---------------------------------------------------------------------------
  // Entries

  /** The entry written for one listed path. */
  function EntryFor(fs: Store, path: Path, parentDir: Path, dirToZip: Path, includeDir: bool): Result<ZipEntry, ZipError> {
    if IsDir(fs, path) then Success(DirEntry(TrimPath(path, parentDir, dirToZip, includeDir) + "/"))
    else if IsFile(fs, path) then Success(FileEntry(TrimPath(path, parentDir, dirToZip, includeDir), Content(fs, path)))
    else Failure(MissingFile(path))
  }

  /** The entries for a list, in order, `entry` giving the entry of one
      path; the first path that cannot be written stops the archive. */
  function Collect(list: seq<Path>, entry: Path -> Result<ZipEntry, ZipError>): Result<seq<ZipEntry>, ZipError> {
    if list == [] then Success([])
    else
      match Collect(list[..|list| - 1], entry)
      case Failure(e) => Failure(e)
      case Success(init) =>
        match entry(list[|list| - 1])
        case Failure(e) => Failure(e)
        case Success(x) => Success(init + [x])
  }

  /** The entries `to_zip` writes for a list. */
  function EntriesFor(fs: Store, list: seq<Path>, parentDir: Path, dirToZip: Path, includeDir: bool): Result<seq<ZipEntry>, ZipError> {
    Collect(list, p => EntryFor(fs, p, parentDir, dirToZip, includeDir))
  }

  /** `to_zip` on a store, given the walk of the directory. */
  function ZipPlan(fs: Store, dirPath: Path, zipFilePath: Option<Path>, includeDir: bool, filelist: Option<seq<Path>>,
                   walk: seq<WalkStep>): Result<Archive, ZipError>
  {
    if !IsDir(fs, dirPath) then Failure(NotADirectory(dirPath))
    else
      var names := Split(dirPath);
      match EntriesFor(fs, FileListFor(filelist, walk), names.0, names.1, includeDir)
      case Failure(e) => Failure(e)
      case Success(entries) => Success(Archive(ZipPathFor(dirPath, zipFilePath), entries))
  }

  /** A listed path can be written exactly when it is a directory or a
      file: a directory becomes its trimmed name plus a separator, a file
      its trimmed name with its content. */
  lemma {:induction false} EntryForKinds(fs: Store, path: Path, parentDir: Path, dirToZip: Path, includeDir: bool)
    ensures EntryFor(fs, path, parentDir, dirToZip, includeDir).Success? <==> IsDir(fs, path) || IsFile(fs, path)
    ensures IsDir(fs, path) ==>
      EntryFor(fs, path, parentDir, dirToZip, includeDir).value == DirEntry(TrimPath(path, parentDir, dirToZip, includeDir) + "/")
    ensures !IsDir(fs, path) && IsFile(fs, path) ==>
      EntryFor(fs, path, parentDir, dirToZip, includeDir).value == FileEntry(TrimPath(path, parentDir, dirToZip, includeDir), Content(fs, path))
  {
  }

  /** The list is written in full exactly when every listed path can be
      written (by `EntryForKinds`, when each is a directory or a file). */
  lemma {:induction false} CollectSucceeds(list: seq<Path>, entry: Path -> Result<ZipEntry, ZipError>)
    ensures Collect(list, entry).Success? <==> forall k :: 0 <= k < |list| ==> entry(list[k]).Success?
  {
    if list != [] {
      var init := list[..|list| - 1];
      CollectSucceeds(init, entry);
      assert forall k :: 0 <= k < |init| ==> init[k] == list[k];
    }
  }

  /** When every path can be written, the entries match the list one for
      one, each being the entry for its path. */
  lemma {:induction false} CollectMatches(list: seq<Path>, entry: Path -> Result<ZipEntry, ZipError>)
    requires forall k :: 0 <= k < |list| ==> entry(list[k]).Success?
    ensures var r := Collect(list, entry);
      && r.Success? && |r.value| == |list|
      && forall k :: 0 <= k < |list| ==> r.value[k] == entry(list[k]).value
  {
    if list != [] {
      var init := list[..|list| - 1];
      assert forall k :: 0 <= k < |init| ==> init[k] == list[k];
      CollectMatches(init, entry);
      var before := Collect(init, entry).value;
      var entries := Collect(list, entry).value;
      assert entries == before + [entry(list[|list| - 1]).value];
      forall k | 0 <= k < |list| ensures entries[k] == entry(list[k]).value {
        if k < |init| {
          assert list[k] == init[k] && entries[k] == before[k];
        }
      }
    }
  }

  /** For `to_zip`: the archive holds every listed path, in order, exactly
      when each is a directory or a file. */
  lemma {:induction false} EntriesMatchList(fs: Store, list: seq<Path>, parentDir: Path, dirToZip: Path, includeDir: bool)
    ensures EntriesFor(fs, list, parentDir, dirToZip, includeDir).Success?
        <==> forall k :: 0 <= k < |list| ==> IsDir(fs, list[k]) || IsFile(fs, list[k])
    ensures EntriesFor(fs, list, parentDir, dirToZip, includeDir).Success? ==>
      var r := EntriesFor(fs, list, parentDir, dirToZip, includeDir).value;
      |r| == |list| && forall k :: 0 <= k < |list| ==> r[k] == EntryFor(fs, list[k], parentDir, dirToZip, includeDir).value
  {
    var entry := p => EntryFor(fs, p, parentDir, dirToZip, includeDir);
    CollectSucceeds(list, entry);
    forall k | 0 <= k < |list| ensures entry(list[k]).Success? <==> IsDir(fs, list[k]) || IsFile(fs, list[k]) {
      EntryForKinds(fs, list[k], parentDir, dirToZip, includeDir);
    }
    if EntriesFor(fs, list, parentDir, dirToZip, includeDir).Success? {
      CollectMatches(list, entry);
    }
  }

  /** Every path of `names` under `dir` is a regular file when every name
      names one there. */
  lemma {:induction false} NamesUnderFiles(fs: Store, dir: Path, names: seq<string>)
    requires forall name :: name in names ==> IsFile(fs, Join(dir, name))
    ensures forall p :: p in NamesUnder(dir, names) ==> IsFile(fs, p)
  {
    if names != [] {
      NamesUnderFiles(fs, dir, names[..|names| - 1]);
    }
  }

  /** The default list of a walk over directories listing regular files
      names only directories and regular files. */
  lemma {:induction false} ListedPathsExist(fs: Store, walk: seq<WalkStep>)
    requires forall k :: 0 <= k < |walk| ==> IsDir(fs, walk[k].path)
    requires forall k, name :: 0 <= k < |walk| && name in walk[k].filenames ==> IsFile(fs, Join(walk[k].path, name))
    ensures forall p :: p in DefaultFileList(walk) ==> IsDir(fs, p) || IsFile(fs, p)
  {
    if walk != [] {
      var init := walk[..|walk| - 1];
      var last := walk[|walk| - 1];
      assert forall k :: 0 <= k < |init| ==> init[k] == walk[k];
      ListedPathsExist(fs, init);
      NamesUnderFiles(fs, last.path, last.filenames);
    }
  }

  /** Over a walk of `dirPath`, `to_zip` without a list fails exactly when
      `dirPath` is not a directory; otherwise it writes one entry per file
      and empty leaf directory the walk reports. */
  lemma {:induction false} WalkedTreeZips(fs: Store, dirPath: Path, zipFilePath: Option<Path>, includeDir: bool, walk: seq<WalkStep>)
    requires WalkOf(fs, dirPath, walk)
    ensures ZipPlan(fs, dirPath, zipFilePath, includeDir, None, walk).Success? <==> IsDir(fs, dirPath)
    ensures IsDir(fs, dirPath) ==> |ZipPlan(fs, dirPath, zipFilePath, includeDir, None, walk).value.entries| == FileCount(walk)
  {
    if IsDir(fs, dirPath) {
      ListedPathsExist(fs, walk);
      var names := Split(dirPath);
      var list := DefaultFileList(walk);
      assert forall k :: 0 <= k < |list| ==> list[k] in list;
      EntriesMatchList(fs, list, names.0, names.1, includeDir);
      DefaultFileListSize(walk);
    }
  }

  /** A path that is not a directory fails before anything is written. */
  lemma {:induction false} NotADirectoryFirst(fs: Store, dirPath: Path, zipFilePath: Option<Path>, includeDir: bool,
                           filelist: Option<seq<Path>>, walk: seq<WalkStep>)
    ensures ZipPlan(fs, dirPath, zipFilePath, includeDir, filelist, walk) == Failure(NotADirectory(dirPath)) <==> !IsDir(fs, dirPath)
  {
    if IsDir(fs, dirPath) {
      var names := Split(dirPath);
      match EntriesFor(fs, FileListFor(filelist, walk), names.0, names.1, includeDir)
      case Failure(e) => {
        assert e.MissingFile? by {
          CollectOnlyMisses(FileListFor(filelist, walk), p => EntryFor(fs, p, names.0, names.1, includeDir));
        }
      }
      case Success(_) =>
    }
  }

  /** A list only fails on a path that is missing, when that is the only
      way one path can fail. */
  lemma {:induction false} CollectOnlyMisses(list: seq<Path>, entry: Path -> Result<ZipEntry, ZipError>)
    requires forall p :: entry(p).Failure? ==> entry(p).error.MissingFile?
    ensures Collect(list, entry).Failure? ==> Collect(list, entry).error.MissingFile?
  {
    if list != [] {
      CollectOnlyMisses(list[..|list| - 1], entry);
    }
  }

  /** An empty list is no list: the archive then holds the whole tree. */
  lemma {:induction false} EmptyListZipsWholeTree(fs: Store, dirPath: Path, zipFilePath: Option<Path>, includeDir: bool, walk: seq<WalkStep>)
    ensures ZipPlan(fs, dirPath, zipFilePath, includeDir, Some([]), walk)
         == ZipPlan(fs, dirPath, zipFilePath, includeDir, None, walk)
  {
  }

  // ---------------------------------------------------------------------------
  // to_zip

  /** `to_zip`. */
  method ToZip(fs: Store, dirPath: Path, zipFilePath: Option<Path>, includeDir: bool, filelist: Option<seq<Path>>,
               walk: seq<WalkStep>)
    returns (r: Result<Archive, ZipError>)
    requires WalkOf(fs, dirPath, walk)
    ensures r == ZipPlan(fs, dirPath, zipFilePath, includeDir, filelist, walk)
  {
    var path := ZipPathFor(dirPath, zipFilePath);
    if !IsDir(fs, dirPath) {
      return Failure(NotADirectory(dirPath));
    }
    var names := Split(dirPath);
    var list: seq<Path>;
    if filelist.None? || filelist.value == [] {
      list := CollectFileList(walk);
    } else {
      list := filelist.value;
    }
    var entries := WriteEntries(fs, list, names.0, names.1, includeDir);
    match entries
    case Failure(e) => r := Failure(e);
    case Success(written) => r := Success(Archive(path, written));
  }

  /** The default file list, built by walking. */
  method CollectFileList(walk: seq<WalkStep>) returns (list: seq<Path>)
    ensures list == DefaultFileList(walk)
  {
    list := [];
    var i := 0;
    while i < |walk|
      invariant 0 <= i <= |walk|
      invariant list == DefaultFileList(walk[..i])
    {
      assert walk[..i + 1][..i] == walk[..i];
      var step := walk[i];
      var paths := CollectNames(step.path, step.filenames);
      list := list + paths;
      if step.filenames == [] && step.dirnames == [] {
        list := list + [step.path];
      }
      i := i + 1;
    }
    assert walk[..i] == walk;
  }

  /** The files of one walked directory, joined to its path. */
  method CollectNames(dir: Path, names: seq<string>) returns (paths: seq<Path>)
    ensures paths == NamesUnder(dir, names)
  {
    paths := [];
    var j := 0;
    while j < |names|
      invariant 0 <= j <= |names|
      invariant paths == NamesUnder(dir, names[..j])
    {
      assert names[..j + 1][..j] == names[..j];
      paths := paths + [Join(dir, names[j])];
      j := j + 1;
    }
    assert names[..j] == names;
  }

  /** The write loop: one entry per listed path, stopping at the first path
      that cannot be written. */
  method WriteEntries(fs: Store, list: seq<Path>, parentDir: Path, dirToZip: Path, includeDir: bool)
    returns (r: Result<seq<ZipEntry>, ZipError>)
    ensures r == EntriesFor(fs, list, parentDir, dirToZip, includeDir)
  {
    ghost var entry := p => EntryFor(fs, p, parentDir, dirToZip, includeDir);
    var written: seq<ZipEntry> := [];
    var i := 0;
    while i < |list|
      invariant 0 <= i <= |list|
      invariant Collect(list[..i], entry) == Success(written)
    {
      CollectSnoc(list, i, entry);
      var path := list[i];
      var name := TrimPath(path, parentDir, dirToZip, includeDir);
      if IsDir(fs, path) {
        assert entry(path) == Success(DirEntry(name + "/"));
        written := written + [DirEntry(name + "/")];
      } else if IsFile(fs, path) {
        assert entry(path) == Success(FileEntry(name, Content(fs, path)));
        written := written + [FileEntry(name, Content(fs, path))];
      } else {
        assert entry(path) == Failure(MissingFile(path));
        assert Collect(list[..i + 1], entry) == Failure(MissingFile(path));
        FailureSticks(list, i + 1, entry);
        return Failure(MissingFile(path));
      }
      i := i + 1;
    }
    assert list[..i] == list;
    r := Success(written);
  }

  /** One more path: the entries so far, then that path's entry. */
  lemma {:induction false} CollectSnoc(list: seq<Path>, i: nat, entry: Path -> Result<ZipEntry, ZipError>)
    requires i < |list|
    ensures Collect(list[..i + 1], entry) ==
      if Collect(list[..i], entry).Failure? then Collect(list[..i], entry)
      else if entry(list[i]).Failure? then Failure(entry(list[i]).error)
      else Success(Collect(list[..i], entry).value + [entry(list[i]).value])
  {
    assert list[..i + 1][..i] == list[..i];
  }

  /** Once a prefix of the list fails, the whole list fails the same way. */
  lemma {:induction false} FailureSticks(list: seq<Path>, n: nat, entry: Path -> Result<ZipEntry, ZipError>)
    requires n <= |list|
    requires Collect(list[..n], entry).Failure?
    ensures Collect(list, entry) == Collect(list[..n], entry)
    decreases |list| - n
  {
    if n < |list| {
      assert list[..n + 1][..n] == list[..n];
      FailureSticks(list, n + 1, entry);
    } else {
      assert list[..n] == list;
    }
  }
}
