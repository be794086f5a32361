/** Copying a content tree with transformations (utils/fileutil.py).

    A transformation is one of the two the packager ships: the HTML rewrite
    and the video pages. Running one is a foreign call; the model records the
    calls made, with their arguments, and gives their effect on file contents
    through a function passed in. Scratch file names come from `tempfile` and
    are a parameter too. */
module FileUtil {
  import opened Wrappers
  import opened Strings
  import opened PosixPath
  import opened FileSystem
  import HtmlTransform
  import VideoTransform
  import Seqs

  datatype Transformation = HtmlRewrite(cfg: HtmlTransform.Config) | VideoPages

  /** `t.applies(src)`. */
  predicate Applies(t: Transformation, src: Path) {
    match t
    case HtmlRewrite(_) => HtmlTransform.Applies(src)
    case VideoPages => VideoTransform.Applies(src)
  }

  /** The metadata argument: None, or the dictionary from video name to
      descriptor path. */
  type Metadata = Option<map<string, Path>>

  // ---------------------------------------------------------------------------
  // Selection

  /** `[t for t in transformations if t.applies(itemsrc)]`. */
  function Applicable(ts: seq<Transformation>, src: Path): (r: seq<Transformation>)
    ensures |r| <= |ts|
    ensures forall k :: 0 <= k < |r| ==> r[k] in ts && Applies(r[k], src)
    ensures forall t :: t in ts && Applies(t, src) ==> t in r
  {
    if ts == [] then []
    else
      var last := ts[|ts| - 1];
      Applicable(ts[..|ts| - 1], src) + (if Applies(last, src) then [last] else [])
  }

  /** Selection keeps list order: it distributes over concatenation. */
  lemma {:induction false} ApplicableAppend(ts1: seq<Transformation>, ts2: seq<Transformation>, src: Path)
    ensures Applicable(ts1 + ts2, src) == Applicable(ts1, src) + Applicable(ts2, src)
    decreases |ts2|
  {
    if ts2 != [] {
      var init := ts2[..|ts2| - 1];
      assert (ts1 + ts2)[..|ts1 + ts2| - 1] == ts1 + init;
      ApplicableAppend(ts1, init, src);
    } else {
      assert ts1 + ts2 == ts1;
    }
  }

  /** No file is claimed by both shipped transformations: a name ending in
      `.html` has the extension `.html` or none, and neither is a video
      extension. */
  lemma {:induction false} HtmlAndVideoDisjoint(src: Path)
    requires HtmlTransform.Applies(src)
    ensures !VideoTransform.Applies(src)
  {
    var ext := SplitExt(src).1;
    if ext != [] {
      assert src[|src| - 5..] == ".html";
      HtmlNotAVideoExtension();
    }
  }

  lemma {:induction false} HtmlNotAVideoExtension()
    ensures ".html" !in VideoTransform.Extensions
  {
    forall e | e in VideoTransform.Extensions ensures e != ".html" {
      assert |e| != 5 || e[1] != 'h';
    }
  }

  /** With the list the packager builds, at most one transformation runs on
      any file. */
  lemma {:induction false} ShippedListRunsAtMostOne(cfg: HtmlTransform.Config, src: Path)
    ensures |Applicable([HtmlRewrite(cfg), VideoPages], src)| <= 1
  {
    var ts := [HtmlRewrite(cfg), VideoPages];
    assert ts[..1] == [HtmlRewrite(cfg)];
    assert [HtmlRewrite(cfg)][..0] == [];
    if HtmlTransform.Applies(src) {
      HtmlAndVideoDisjoint(src);
    }
  }

  // ---------------------------------------------------------------------------
  // Chaining

  /** The arguments of one `apply(src, dst, finaldst, metadata, video_src)`. */
  datatype Call = Call(t: Transformation, src: Path, dst: Path, finaldst: Path, metadata: Metadata, videoSrc: Path)

  /** What copying one file does: a plain `shutil.copy2`, a transformation
      call, or the removal of a scratch file. */
  datatype Action = PlainCopy(src: Path, dst: Path) | Run(call: Call) | Discard(path: Path)

  /** The calls made for the applicable transformations `valid`, the first
      reading `inpath`: every call but the last writes the next scratch file,
      which the following call reads; the last writes `itemdst`. Every call
      is told the final destination, the metadata and the videos folder. */
  function Chain(valid: seq<Transformation>, inpath: Path, itemdst: Path, metadata: Metadata, videoSrc: Path,
                 scratch: nat -> Path, k: nat): (r: seq<Call>)
    requires valid != []
    ensures |r| == |valid|
    decreases |valid|
  {
    if |valid| == 1 then [Call(valid[0], inpath, itemdst, itemdst, metadata, videoSrc)]
    else [Call(valid[0], inpath, scratch(k), itemdst, metadata, videoSrc)]
         + Chain(valid[1..], scratch(k), itemdst, metadata, videoSrc, scratch, k + 1)
  }

  function Runs(calls: seq<Call>): (r: seq<Action>)
    ensures |r| == |calls|
    ensures forall i :: 0 <= i < |calls| ==> r[i] == Run(calls[i])
  {
    if calls == [] then [] else [Run(calls[0])] + Runs(calls[1..])
  }

  /** What `copy_with_transformations` does for one file, with the
      corrected chain (see `ChainShape`). */
  function CopyActions(itemsrc: Path, itemdst: Path, ts: seq<Transformation>, metadata: Metadata, videoSrc: Path,
                       scratch: nat -> Path): seq<Action>
  {
    var valid := Applicable(ts, itemsrc);
    if valid == [] then [PlainCopy(itemsrc, itemdst)]
    else Runs(Chain(valid, itemsrc, itemdst, metadata, videoSrc, scratch, 0))
  }

  /** The chain runs exactly the applicable transformations, in order; each
      call reads what the previous one wrote; only the last writes the real
      destination; all are told the final destination and the metadata. */
  lemma {:induction false} ChainShape(valid: seq<Transformation>, inpath: Path, itemdst: Path, metadata: Metadata,
                                      videoSrc: Path, scratch: nat -> Path, k: nat)
    requires valid != []
    ensures var c := Chain(valid, inpath, itemdst, metadata, videoSrc, scratch, k);
      && c[0].src == inpath
      && c[|c| - 1].dst == itemdst
      && (forall i :: 0 <= i < |c| ==>
            c[i].t == valid[i] && c[i].finaldst == itemdst && c[i].metadata == metadata && c[i].videoSrc == videoSrc)
      && (forall i :: 0 <= i < |c| - 1 ==> c[i].dst == scratch(k + i) && c[i + 1].src == c[i].dst)
    decreases |valid|
  {
    if |valid| > 1 {
      var c := Chain(valid, inpath, itemdst, metadata, videoSrc, scratch, k);
      var rest := Chain(valid[1..], scratch(k), itemdst, metadata, videoSrc, scratch, k + 1);
      ChainShape(valid[1..], scratch(k), itemdst, metadata, videoSrc, scratch, k + 1);
      assert c == [c[0]] + rest;
      forall i | 0 <= i < |c| - 1 ensures c[i].dst == scratch(k + i) && c[i + 1].src == c[i].dst {
        if i > 0 {
          assert c[i] == rest[i - 1] && c[i + 1] == rest[i];
        }
      }
    }
  }

  /** `copy_with_transformations`, with the intermediate calls given the
      metadata argument they need (see the findings). */
  method CopyWithTransformations(itemsrc: Path, itemdst: Path, ts: seq<Transformation>, metadata: Metadata,
                                 videoSrc: Path, scratch: nat -> Path)
    returns (actions: seq<Action>)
    ensures actions == CopyActions(itemsrc, itemdst, ts, metadata, videoSrc, scratch)
  {
    var valid := Applicable(ts, itemsrc);
    if valid == [] {
      return [PlainCopy(itemsrc, itemdst)];
    }
    actions := RunChain(valid, itemsrc, itemdst, metadata, videoSrc, scratch);
  }

  /** The loop of `copy_with_transformations` over the applicable
      transformations: all but the last write a fresh scratch file, which
      becomes the next input; the last writes the destination. */
  method RunChain(valid: seq<Transformation>, itemsrc: Path, itemdst: Path, metadata: Metadata, videoSrc: Path,
                  scratch: nat -> Path)
    returns (actions: seq<Action>)
    requires valid != []
    ensures actions == Runs(Chain(valid, itemsrc, itemdst, metadata, videoSrc, scratch, 0))
  {
    ghost var whole := Runs(Chain(valid, itemsrc, itemdst, metadata, videoSrc, scratch, 0));
    var inpath := itemsrc;
    actions := [];
    var i := 0;
    while i < |valid| - 1
      invariant 0 <= i <= |valid| - 1
      invariant actions + Runs(Chain(valid[i..], inpath, itemdst, metadata, videoSrc, scratch, i)) == whole
    {
      var temp := scratch(i);
      ChainUnfold(valid, i, inpath, itemdst, metadata, videoSrc, scratch);
      actions := actions + [Run(Call(valid[i], inpath, temp, itemdst, metadata, videoSrc))];
      inpath := temp;
      i := i + 1;
    }
    assert valid[i..] == [valid[i]];
    actions := actions + [Run(Call(valid[i], inpath, itemdst, itemdst, metadata, videoSrc))];
  }

  /** One step of the chaining loop: the first remaining call, then the rest. */
  lemma {:induction false} ChainUnfold(valid: seq<Transformation>, i: nat, inpath: Path, itemdst: Path, metadata: Metadata,
                    videoSrc: Path, scratch: nat -> Path)
    requires i < |valid| - 1
    ensures Runs(Chain(valid[i..], inpath, itemdst, metadata, videoSrc, scratch, i))
         == [Run(Call(valid[i], inpath, scratch(i), itemdst, metadata, videoSrc))]
            + Runs(Chain(valid[i + 1..], scratch(i), itemdst, metadata, videoSrc, scratch, i + 1))
  {
    assert valid[i..][1..] == valid[i + 1..];
    RunsAppend([Call(valid[i], inpath, scratch(i), itemdst, metadata, videoSrc)],
               Chain(valid[i + 1..], scratch(i), itemdst, metadata, videoSrc, scratch, i + 1));
  }

  lemma {:induction false} RunsAppend(c1: seq<Call>, c2: seq<Call>)
    ensures Runs(c1 + c2) == Runs(c1) + Runs(c2)
  {
    if c1 == [] {
      assert c1 + c2 == c2;
    } else {
      assert (c1 + c2)[1..] == c1[1..] + c2;
      RunsAppend(c1[1..], c2);
    }
  }

  // ---------------------------------------------------------------------------
  // Effect on file contents

  /** One action on the files: a copy duplicates the content; a call writes
      what the transformation makes of its input, given where it writes; a
      discard removes the file. A missing source fails, as `open` would. */
  function Step(files: map<Path, string>, a: Action, run: (Transformation, string, Path) -> string): Option<map<Path, string>> {
    match a
    case PlainCopy(src, dst) => if src in files then Some(files[dst := files[src]]) else None
    case Run(c) => if c.src in files then Some(files[c.dst := run(c.t, files[c.src], c.dst)]) else None
    case Discard(p) => Some(files - {p})
  }

  function Perform(files: map<Path, string>, actions: seq<Action>, run: (Transformation, string, Path) -> string): Option<map<Path, string>>
    decreases |actions|
  {
    if actions == [] then Some(files)
    else match Step(files, actions[0], run)
      case None => None
      case Some(next) => Perform(next, actions[1..], run)
  }

  /** What the transformations make of `input`, one after the other, each
      told the path it writes. */
  function Pipe(valid: seq<Transformation>, input: string, itemdst: Path, scratch: nat -> Path, k: nat,
                run: (Transformation, string, Path) -> string): string
    requires valid != []
    decreases |valid|
  {
    if |valid| == 1 then run(valid[0], input, itemdst)
    else Pipe(valid[1..], run(valid[0], input, scratch(k)), itemdst, scratch, k + 1, run)
  }

  /** Running the corrected chain, in which every scratch file lives until
      the next call has read it, leaves at the destination the composition of
      the transformations applied to the source content. */
  lemma {:induction false} ChainComposes(valid: seq<Transformation>, files: map<Path, string>, inpath: Path, itemdst: Path,
                                         metadata: Metadata, videoSrc: Path, scratch: nat -> Path, k: nat,
                                         run: (Transformation, string, Path) -> string)
    requires valid != [] && inpath in files
    ensures var out := Perform(files, Runs(Chain(valid, inpath, itemdst, metadata, videoSrc, scratch, k)), run);
      && out.Some?
      && itemdst in out.value
      && out.value[itemdst] == Pipe(valid, files[inpath], itemdst, scratch, k, run)
    decreases |valid|
  {
    var acts := Runs(Chain(valid, inpath, itemdst, metadata, videoSrc, scratch, k));
    if |valid| == 1 {
      assert acts[1..] == [];
    } else {
      var rest := Chain(valid[1..], scratch(k), itemdst, metadata, videoSrc, scratch, k + 1);
      RunsAppend([Call(valid[0], inpath, scratch(k), itemdst, metadata, videoSrc)], rest);
      assert acts[1..] == Runs(rest);
      var next := files[scratch(k) := run(valid[0], files[inpath], scratch(k))];
      assert Step(files, acts[0], run) == Some(next);
      ChainComposes(valid[1..], next, scratch(k), itemdst, metadata, videoSrc, scratch, k + 1, run);
    }
  }

  /** The corrected calls with the scratch files handled as the loop handles
      them: each intermediate turn binds `temp` to a new `NamedTemporaryFile`,
      which drops the one bound before, and a dropped temporary file is
      deleted, so the previous scratch file is gone before the call that
      reads it. `held` is the scratch file `temp` is bound to. */
  function ChainRebinding(valid: seq<Transformation>, inpath: Path, itemdst: Path, metadata: Metadata, videoSrc: Path,
                          scratch: nat -> Path, k: nat, held: Option<Path>): (r: seq<Action>)
    requires valid != []
    ensures |r| >= |valid|
    decreases |valid|
  {
    if |valid| == 1 then [Run(Call(valid[0], inpath, itemdst, itemdst, metadata, videoSrc))]
    else
      (if held.Some? then [Discard(held.value)] else [])
      + [Run(Call(valid[0], inpath, scratch(k), itemdst, metadata, videoSrc))]
      + ChainRebinding(valid[1..], scratch(k), itemdst, metadata, videoSrc, scratch, k + 1, Some(scratch(k)))
  }

  /** With one or two applicable transformations the rebinding deletes
      nothing before it is read: the actions are those of the corrected
      chain, so `ChainComposes` describes the result. */
  lemma {:induction false} RebindingHarmlessUpToTwo(valid: seq<Transformation>, inpath: Path, itemdst: Path, metadata: Metadata,
                                                   videoSrc: Path, scratch: nat -> Path, k: nat)
    requires 1 <= |valid| <= 2
    ensures ChainRebinding(valid, inpath, itemdst, metadata, videoSrc, scratch, k, None)
         == Runs(Chain(valid, inpath, itemdst, metadata, videoSrc, scratch, k))
  {
    if |valid| == 2 {
      var rest := Chain(valid[1..], scratch(k), itemdst, metadata, videoSrc, scratch, k + 1);
      RunsAppend([Call(valid[0], inpath, scratch(k), itemdst, metadata, videoSrc)], rest);
      assert |valid[1..]| == 1;
    }
  }

  /** With three or more applicable transformations the second call reads a
      scratch file the rebinding has already deleted, so the copy fails
      however the transformations behave. */
  lemma {:induction false} RebindingLosesScratch(valid: seq<Transformation>, files: map<Path, string>, inpath: Path, itemdst: Path,
                                                metadata: Metadata, videoSrc: Path, scratch: nat -> Path, k: nat,
                                                run: (Transformation, string, Path) -> string)
    requires |valid| >= 3
    ensures Perform(files, ChainRebinding(valid, inpath, itemdst, metadata, videoSrc, scratch, k, None), run).None?
  {
    var acts := ChainRebinding(valid, inpath, itemdst, metadata, videoSrc, scratch, k, None);
    var tail := ChainRebinding(valid[2..], scratch(k + 1), itemdst, metadata, videoSrc, scratch, k + 2, Some(scratch(k + 1)));
    var first := Run(Call(valid[0], inpath, scratch(k), itemdst, metadata, videoSrc));
    var second := Run(Call(valid[1], scratch(k), scratch(k + 1), itemdst, metadata, videoSrc));
    assert valid[1..][1..] == valid[2..];
    var r1 := ChainRebinding(valid[1..], scratch(k), itemdst, metadata, videoSrc, scratch, k + 1, Some(scratch(k)));
    assert acts == [] + [first] + r1;
    assert r1 == [Discard(scratch(k))] + [second] + tail;
    assert acts == [first] + ([Discard(scratch(k))] + [second] + tail);
    if inpath in files {
      var next := files[scratch(k) := run(valid[0], files[inpath], scratch(k))];
      assert Perform(files, acts, run) == Perform(next, acts[1..], run);
      assert acts[1..][1..] == [second] + tail;
      assert Perform(next, acts[1..], run) == Perform(next - {scratch(k)}, [second] + tail, run);
    }
  }

  /** A file no transformation claims arrives unchanged; in particular a
      plain-text file copied with only the HTML rewrite configured. */
  lemma {:induction false} UnclaimedFileCopiedVerbatim(files: map<Path, string>, itemsrc: Path, itemdst: Path, ts: seq<Transformation>,
                                    metadata: Metadata, videoSrc: Path, scratch: nat -> Path,
                                    run: (Transformation, string, Path) -> string)
    requires itemsrc in files
    requires forall t :: t in ts ==> !Applies(t, itemsrc)
    ensures var out := Perform(files, CopyActions(itemsrc, itemdst, ts, metadata, videoSrc, scratch), run);
      out.Some? && out.value == files[itemdst := files[itemsrc]]
  {
    var acts := [PlainCopy(itemsrc, itemdst)];
    assert acts[1..] == [];
  }

  /** The copy of a text file with only the HTML rewrite configured. */
  lemma {:induction false} TextFileWithHtmlRewrite(files: map<Path, string>, itemsrc: Path, itemdst: Path, cfg: HtmlTransform.Config,
                                scratch: nat -> Path, run: (Transformation, string, Path) -> string)
    requires itemsrc in files && !EndsWith(itemsrc, ".html")
    ensures var out := Perform(files, CopyActions(itemsrc, itemdst, [HtmlRewrite(cfg)], None, "", scratch), run);
      out.Some? && itemdst in out.value && out.value[itemdst] == files[itemsrc]
  {
    UnclaimedFileCopiedVerbatim(files, itemsrc, itemdst, [HtmlRewrite(cfg)], None, "", scratch, run);
  }

  // ---------------------------------------------------------------------------
  // The intermediate calls as written

  /** An argument passed to `apply`. */
  datatype Value = PathValue(path: Path) | MetaValue(meta: Metadata)

  /** Both `apply` methods take five positional parameters after `self`:
      source, destination, final destination, metadata and videos folder. */
  const ApplyArity: nat := 5

  /** The argument list of a call of the corrected chain. */
  function ArgsOf(c: Call): seq<Value> {
    [PathValue(c.src), PathValue(c.dst), PathValue(c.finaldst), MetaValue(c.metadata), PathValue(c.videoSrc)]
  }

  /** The calls the loop makes as the code is written: each intermediate call
      passes the input, the scratch file, the destination and the videos
      folder, with no metadata; the last passes all five. */
  function CallsAsWritten(valid: seq<Transformation>, inpath: Path, itemdst: Path, metadata: Metadata, videoSrc: Path,
                          scratch: nat -> Path, k: nat): (r: seq<(Transformation, seq<Value>)>)
    requires valid != []
    ensures |r| == |valid|
    decreases |valid|
  {
    if |valid| == 1 then [(valid[0], [PathValue(inpath), PathValue(itemdst), PathValue(itemdst), MetaValue(metadata), PathValue(videoSrc)])]
    else [(valid[0], [PathValue(inpath), PathValue(scratch(k)), PathValue(itemdst), PathValue(videoSrc)])]
         + CallsAsWritten(valid[1..], scratch(k), itemdst, metadata, videoSrc, scratch, k + 1)
  }

  /** Python raises TypeError at the first call whose argument count is not
      the method's arity; the calls before it have run. */
  function FirstBadCall(calls: seq<(Transformation, seq<Value>)>): (r: Option<nat>)
    ensures r.Some? ==> r.value < |calls| && |calls[r.value].1| != ApplyArity
    ensures r.Some? ==> forall i :: 0 <= i < r.value ==> |calls[i].1| == ApplyArity
    ensures r.None? ==> forall i :: 0 <= i < |calls| ==> |calls[i].1| == ApplyArity
  {
    if calls == [] then None
    else if |calls[0].1| != ApplyArity then Some(0)
    else match FirstBadCall(calls[1..])
      case None => None
      case Some(i) => Some(i + 1)
  }

  /** As written, two or more applicable transformations make the very first
      call raise, before anything is transformed; the corrected chain binds
      every parameter of every call. With one, both agree. */
  lemma {:induction false} IntermediateCallMissesArgument(valid: seq<Transformation>, itemsrc: Path, itemdst: Path, metadata: Metadata,
                                       videoSrc: Path, scratch: nat -> Path)
    requires valid != []
    ensures var written := CallsAsWritten(valid, itemsrc, itemdst, metadata, videoSrc, scratch, 0);
            var fixed := Chain(valid, itemsrc, itemdst, metadata, videoSrc, scratch, 0);
      && (|valid| >= 2 ==> FirstBadCall(written) == Some(0))
      && (|valid| == 1 ==> FirstBadCall(written).None? && written == [(fixed[0].t, ArgsOf(fixed[0]))])
      && (forall i :: 0 <= i < |fixed| ==> |ArgsOf(fixed[i])| == ApplyArity)
  {
  }

  // ---------------------------------------------------------------------------
  // Walking a tree

  /** The files directly in a walked directory whose path ends with
      "metadata" are not copied and no mirror is made for it; its
      subdirectories are walked and copied like any other. */
  predicate SkippedDir(path: Path) {
    EndsWith(path, "metadata")
  }

  /** YAML descriptors and dot-files are not copied. */
  predicate SkippedName(name: string) {
    EndsWith(name, ".yaml") || StartsWith(name, ".")
  }

  /** The names of one directory that `skip` does not reject, as (directory,
      name) pairs in listing order. */
  function KeptBy(dir: Path, names: seq<string>, skip: string -> bool): (r: seq<(Path, string)>)
    ensures |r| <= |names|
  {
    if names == [] then []
    else
      var last := names[|names| - 1];
      KeptBy(dir, names[..|names| - 1], skip) + (if skip(last) then [] else [(dir, last)])
  }

  /** The names of one directory that are copied. */
  function KeptIn(dir: Path, names: seq<string>): seq<(Path, string)> {
    KeptBy(dir, names, SkippedName)
  }

  /** The files of one walked directory that are copied. */
  function KeptFrom(step: WalkStep): seq<(Path, string)> {
    if SkippedDir(step.path) then [] else KeptIn(step.path, step.filenames)
  }

  /** What `kept` gives for the directories of `walk`, in walk order. */
  function KeptAll(walk: seq<WalkStep>, kept: WalkStep -> seq<(Path, string)>): seq<(Path, string)> {
    if walk == [] then [] else KeptAll(walk[..|walk| - 1], kept) + kept(walk[|walk| - 1])
  }

  /** The files a walk yields that are copied and counted, in walk order. */
  function Kept(walk: seq<WalkStep>): seq<(Path, string)> {
    KeptAll(walk, KeptFrom)
  }

  /** `count_files`: the number of files the copy walk copies, or 0 when the
      path is not a directory. */
  method CountFiles(fs: Store, directory: Path, walk: seq<WalkStep>) returns (n: nat)
    requires WalkOf(fs, directory, walk)
    ensures n == (if IsDir(fs, directory) then |Kept(walk)| else 0)
  {
    var files: seq<string> := [];
    if IsDir(fs, directory) {
      var i := 0;
      while i < |walk|
        invariant 0 <= i <= |walk|
        invariant |files| == |Kept(walk[..i])|
      {
        assert walk[..i + 1][..i] == walk[..i];
        if !SkippedDir(walk[i].path) {
          var names := walk[i].filenames;
          var j := 0;
          while j < |names|
            invariant 0 <= j <= |names|
            invariant |files| == |Kept(walk[..i])| + |KeptIn(walk[i].path, names[..j])|
          {
            KeptInStep(walk[i].path, names, j);
            if !SkippedName(names[j]) {
              files := files + [names[j]];
            }
            j := j + 1;
          }
          assert names[..j] == names;
        }
        i := i + 1;
      }
      assert walk[..i] == walk;
    }
    n := |files|;
  }

  /** What stays fixed during one `copy_files`: the arguments, the count the
      progress bar is given, and `copy`, which stands for
      `copy_with_transformations` with the fixed arguments. */
  datatype Job = Job(srcDir: Path, dstDir: Path, ts: seq<Transformation>, metadata: Metadata, videoSrc: Path,
                     scratch: nat -> Path, total: nat, copy: (Path, Path) -> seq<Action>)

  ghost predicate CopiesWithTransformations(job: Job) {
    forall s, d {:trigger CopyActions(s, d, job.ts, job.metadata, job.videoSrc, job.scratch)} :: job.copy(s, d) == CopyActions(s, d, job.ts, job.metadata, job.videoSrc, job.scratch)
  }

  /** What `copy_files` does, in order: create a mirrored directory, copy one
      file (with the actions of `copy_with_transformations`), or report
      progress as (files copied so far, files counted). */
  datatype Op = MadeDir(path: Path) | Copied(src: Path, dst: Path, actions: seq<Action>) | Progress(done: nat, total: nat)

  /** Where a walked directory is mirrored: the destination joined with the
      walked path minus the source directory and one separator. */
  function MirrorOf(job: Job, srcpath: Path): Path {
    Join(job.dstDir, SliceFrom(srcpath, |job.srcDir| + 1))
  }

  /** The operations `step` gives for each of `names` that `skip` does not
      reject, in listing order; `step` is told how many files were copied
      before. */
  function Spread(dir: Path, names: seq<string>, skip: string -> bool, step: (string, nat) -> seq<Op>, done: nat): seq<Op> {
    if names == [] then []
    else
      var init := names[..|names| - 1];
      var last := names[|names| - 1];
      Spread(dir, init, skip, step, done) + (if skip(last) then [] else step(last, done + |KeptBy(dir, init, skip)|))
  }

  /** The operations for one copied file: the copy, then the report of the
      running count. */
  function FileStep(job: Job, srcpath: Path, dstpath: Path): (string, nat) -> seq<Op> {
    (name: string, done: nat) =>
      [Copied(Join(srcpath, name), Join(dstpath, name), job.copy(Join(srcpath, name), Join(dstpath, name))),
       Progress(done + 1, job.total)]
  }

  /** The operations for the files `names` of one directory, when `done`
      files were copied before the directory. */
  function FileOps(job: Job, srcpath: Path, dstpath: Path, names: seq<string>, done: nat): seq<Op> {
    Spread(srcpath, names, SkippedName, FileStep(job, srcpath, dstpath), done)
  }

  /** The store after visiting one walked directory: its mirror is created
      when nothing exists there yet. */
  function DirStore(job: Job, fs: Store, step: WalkStep): Store {
    if SkippedDir(step.path) || Exists(fs, MirrorOf(job, step.path)) then fs
    else MakeDirs(fs, MirrorOf(job, step.path))
  }

  /** The operations for one walked directory. */
  function DirOps(job: Job, fs: Store, step: WalkStep, done: nat): seq<Op> {
    if SkippedDir(step.path) then []
    else
      var dstpath := MirrorOf(job, step.path);
      (if Exists(fs, dstpath) then [] else [MadeDir(dstpath)]) + FileOps(job, step.path, dstpath, step.filenames, done)
  }

  /** A walk over the directories of `walk`, starting from the store `fs`:
      each directory updates the store with `visit` and adds the operations
      `emit` gives for it, given the store before it and the number of files
      `kept` found in the directories before it. */
  function Walk(fs: Store, walk: seq<WalkStep>, visit: (Store, WalkStep) -> Store,
                emit: (Store, WalkStep, nat) -> seq<Op>, kept: WalkStep -> seq<(Path, string)>): (Store, seq<Op>)
  {
    if walk == [] then (fs, [])
    else
      var init := walk[..|walk| - 1];
      var prev := Walk(fs, init, visit, emit, kept);
      (visit(prev.0, walk[|walk| - 1]), prev.1 + emit(prev.0, walk[|walk| - 1], |KeptAll(init, kept)|))
  }

  function Visit(job: Job): (Store, WalkStep) -> Store {
    (fs: Store, step: WalkStep) => DirStore(job, fs, step)
  }

  function Emit(job: Job): (Store, WalkStep, nat) -> seq<Op> {
    (fs: Store, step: WalkStep, done: nat) => DirOps(job, fs, step, done)
  }

  /** The walk branch of `copy_files`: the store and the operations after the
      directories of `walk`. */
  function WalkOps(job: Job, fs: Store, walk: seq<WalkStep>): (Store, seq<Op>) {
    Walk(fs, walk, Visit(job), Emit(job), KeptFrom)
  }

  /** `copy_files` on a store, given the walk of the source directory: a
      single file that is not a descriptor is copied straight to the
      destination; anything else is walked. */
  function CopyPlan(fs: Store, job: Job, walk: seq<WalkStep>): (Store, seq<Op>) {
    if IsFile(fs, job.srcDir) && !EndsWith(job.srcDir, ".yaml") then
      (fs, [Copied(job.srcDir, job.dstDir, job.copy(job.srcDir, job.dstDir))])
    else WalkOps(job, fs, walk)
  }

  /** The job of one `copy_files` call: the total is what `count_files`
      reports for the source directory. */
  function FilesJob(fs: Store, srcDir: Path, dstDir: Path, ts: seq<Transformation>, metadata: Metadata, videoSrc: Path,
                    scratch: nat -> Path, walk: seq<WalkStep>): Job
  {
    Job(srcDir, dstDir, ts, metadata, videoSrc, scratch, if IsDir(fs, srcDir) then |Kept(walk)| else 0,
        (s, d) => CopyActions(s, d, ts, metadata, videoSrc, scratch))
  }

  /** `copy_files`. The progress bar is told the count `count_files` found. */
  method CopyFiles(fs: Store, srcDir: Path, dstDir: Path, ts: seq<Transformation>, metadata: Metadata, videoSrc: Path,
                   scratch: nat -> Path, walk: seq<WalkStep>)
    returns (store: Store, ops: seq<Op>)
    requires WalkOf(fs, srcDir, walk)
    ensures (store, ops) == CopyPlan(fs, FilesJob(fs, srcDir, dstDir, ts, metadata, videoSrc, scratch, walk), walk)
  {
    var numFiles := CountFiles(fs, srcDir, walk);
    var job := Job(srcDir, dstDir, ts, metadata, videoSrc, scratch, numFiles,
                   (s, d) => CopyActions(s, d, ts, metadata, videoSrc, scratch));
    if IsFile(fs, srcDir) && !EndsWith(srcDir, ".yaml") {
      var actions := CopyWithTransformations(srcDir, dstDir, ts, metadata, videoSrc, scratch);
      return fs, [Copied(srcDir, dstDir, actions)];
    }
    store, ops := CopyWalk(job, fs, walk);
  }

  /** The walk loop of `copy_files`. */
  method CopyWalk(job: Job, fs: Store, walk: seq<WalkStep>) returns (store: Store, ops: seq<Op>)
    requires CopiesWithTransformations(job)
    ensures (store, ops) == WalkOps(job, fs, walk)
  {
    store := fs;
    ops := [];
    var numCopied: nat := 0;
    var i := 0;
    while i < |walk|
      invariant 0 <= i <= |walk|
      invariant (store, ops) == WalkOps(job, fs, walk[..i])
      invariant numCopied == |Kept(walk[..i])|
    {
      assert walk[..i + 1][..i] == walk[..i];
      var dirOps;
      store, dirOps, numCopied := CopyDir(job, store, walk[i], numCopied);
      ops := ops + dirOps;
      i := i + 1;
    }
    assert walk[..i] == walk;
  }

  /** One turn of the walk loop: mirror the directory, then copy its files. */
  method CopyDir(job: Job, fs: Store, step: WalkStep, done: nat) returns (store: Store, ops: seq<Op>, copied: nat)
    requires CopiesWithTransformations(job)
    ensures store == DirStore(job, fs, step)
    ensures ops == DirOps(job, fs, step, done)
    ensures copied == done + |KeptFrom(step)|
  {
    if SkippedDir(step.path) {
      return fs, [], done;
    }
    var dstpath := MirrorOf(job, step.path);
    store := fs;
    ops := [];
    if !Exists(store, dstpath) {
      ops := [MadeDir(dstpath)];
      store := MakeDirs(store, dstpath);
    }
    var fileOps;
    fileOps, copied := CopyNames(job, step.path, dstpath, step.filenames, done);
    ops := ops + fileOps;
  }

  lemma {:induction false} KeptInStep(dir: Path, names: seq<string>, j: nat)
    requires j < |names|
    ensures KeptIn(dir, names[..j + 1]) == KeptIn(dir, names[..j]) + (if SkippedName(names[j]) then [] else [(dir, names[j])])
  {
    assert names[..j + 1][..j] == names[..j];
  }

  lemma {:induction false} FileOpsStep(job: Job, srcpath: Path, dstpath: Path, names: seq<string>, j: nat, done: nat)
    requires j < |names|
    ensures FileOps(job, srcpath, dstpath, names[..j + 1], done)
         == FileOps(job, srcpath, dstpath, names[..j], done)
            + (if SkippedName(names[j]) then []
               else [Copied(Join(srcpath, names[j]), Join(dstpath, names[j]), job.copy(Join(srcpath, names[j]), Join(dstpath, names[j]))),
                     Progress(done + |KeptIn(srcpath, names[..j])| + 1, job.total)])
    ensures KeptIn(srcpath, names[..j + 1]) == KeptIn(srcpath, names[..j]) + (if SkippedName(names[j]) then [] else [(srcpath, names[j])])
  {
    assert names[..j + 1][..j] == names[..j];
  }

  /** One file of the walk, copied with the job's transformations. */
  method CopyItem(job: Job, itemsrc: Path, itemdst: Path) returns (actions: seq<Action>)
    requires CopiesWithTransformations(job)
    ensures actions == job.copy(itemsrc, itemdst)
  {
    actions := CopyWithTransformations(itemsrc, itemdst, job.ts, job.metadata, job.videoSrc, job.scratch);
  }

  /** The loop over the file names of one walked directory. */
  method CopyNames(job: Job, srcpath: Path, dstpath: Path, names: seq<string>, done: nat) returns (ops: seq<Op>, copied: nat)
    requires CopiesWithTransformations(job)
    ensures ops == FileOps(job, srcpath, dstpath, names, done)
    ensures copied == done + |KeptIn(srcpath, names)|
  {
    ops := [];
    copied := done;
    var j := 0;
    while j < |names|
      invariant 0 <= j <= |names|
      invariant ops == FileOps(job, srcpath, dstpath, names[..j], done)
      invariant copied == done + |KeptIn(srcpath, names[..j])|
    {
      FileOpsStep(job, srcpath, dstpath, names, j, done);
      if !SkippedName(names[j]) {
        var itemsrc := Join(srcpath, names[j]);
        var itemdst := Join(dstpath, names[j]);
        var actions := CopyItem(job, itemsrc, itemdst);
        copied := copied + 1;
        ops := ops + [Copied(itemsrc, itemdst, actions), Progress(copied, job.total)];
      }
      j := j + 1;
    }
    assert names[..j] == names;
  }

  // ---------------------------------------------------------------------------
  // What a walk copies and reports

  /** The (source, destination) pairs of the copies among `ops`, in order. */
  function Copies(ops: seq<Op>): seq<(Path, Path)> {
    if ops == [] then []
    else
      var last := ops[|ops| - 1];
      Copies(ops[..|ops| - 1]) + (if last.Copied? then [(last.src, last.dst)] else [])
  }

  /** The (done, total) pairs handed to the progress bar among `ops`. */
  function Reports(ops: seq<Op>): seq<(nat, nat)> {
    if ops == [] then []
    else
      var last := ops[|ops| - 1];
      Reports(ops[..|ops| - 1]) + (if last.Progress? then [(last.done, last.total)] else [])
  }

  /** Where each kept file is copied from and to. */
  function Targets(job: Job, kept: seq<(Path, string)>): (r: seq<(Path, Path)>)
    ensures |r| == |kept|
  {
    Seqs.Map(kept, (f: (Path, string)) => (Join(f.0, f.1), Join(MirrorOf(job, f.0), f.1)))
  }

  /** The reports `from + 1`, ..., `from + n`, each out of `total`. */
  function Numbered(from: nat, n: nat, total: nat): (r: seq<(nat, nat)>)
    ensures |r| == n
  {
    if n == 0 then [] else Numbered(from, n - 1, total) + [(from + n, total)]
  }

  lemma {:induction false} NumberedAt(from: nat, n: nat, total: nat, i: nat)
    requires i < n
    ensures Numbered(from, n, total)[i] == (from + i + 1, total)
  {
    if i < n - 1 {
      NumberedAt(from, n - 1, total, i);
    }
  }

  lemma {:induction false} CopiesAppend(a: seq<Op>, b: seq<Op>)
    ensures Copies(a + b) == Copies(a) + Copies(b)
  {
    if b == [] {
      assert a + b == a;
    } else {
      assert (a + b)[..|a + b| - 1] == a + b[..|b| - 1];
      CopiesAppend(a, b[..|b| - 1]);
    }
  }

  lemma {:induction false} ReportsAppend(a: seq<Op>, b: seq<Op>)
    ensures Reports(a + b) == Reports(a) + Reports(b)
  {
    if b == [] {
      assert a + b == a;
    } else {
      assert (a + b)[..|a + b| - 1] == a + b[..|b| - 1];
      ReportsAppend(a, b[..|b| - 1]);
    }
  }

  lemma {:induction false} TargetsAppend(job: Job, a: seq<(Path, string)>, b: seq<(Path, string)>)
    ensures Targets(job, a + b) == Targets(job, a) + Targets(job, b)
  {
    Seqs.MapAppend(a, b, (f: (Path, string)) => (Join(f.0, f.1), Join(MirrorOf(job, f.0), f.1)));
  }

  lemma {:induction false} NumberedAppend(from: nat, a: nat, b: nat, total: nat)
    ensures Numbered(from, a, total) + Numbered(from + a, b, total) == Numbered(from, a + b, total)
  {
    if b != 0 {
      NumberedAppend(from, a, b - 1, total);
    }
  }

  lemma {:induction false} FileStepCopies(job: Job, srcpath: Path, name: string, done: nat)
    ensures Copies(FileStep(job, srcpath, MirrorOf(job, srcpath))(name, done)) == Targets(job, [(srcpath, name)])
  {
    var step := FileStep(job, srcpath, MirrorOf(job, srcpath))(name, done);
    assert step[..1] == [step[0]] && step[..1][..0] == [];
    assert Copies(step[..1]) == [(step[0].src, step[0].dst)];
    var kept := [(srcpath, name)];
    assert Targets(job, kept) == [(Join(srcpath, name), Join(MirrorOf(job, srcpath), name))];
  }

  lemma {:induction false} FileStepReports(job: Job, srcpath: Path, dstpath: Path, name: string, done: nat)
    ensures Reports(FileStep(job, srcpath, dstpath)(name, done)) == Numbered(done, 1, job.total)
  {
    var step := FileStep(job, srcpath, dstpath)(name, done);
    assert step[..1] == [step[0]] && step[..1][..0] == [];
    assert Reports(step[..1]) == [];
    assert Numbered(done, 1, job.total) == [(done + 1, job.total)];
  }

  /** Whatever the names and the test, the copies are those of the kept names
      in listing order, when each step copies its own name. */
  lemma {:induction false} SpreadTargets(job: Job, dir: Path, names: seq<string>, skip: string -> bool,
                                         step: (string, nat) -> seq<Op>, done: nat)
    requires forall name, d {:trigger step(name, d)} :: Copies(step(name, d)) == Targets(job, [(dir, name)])
    ensures Copies(Spread(dir, names, skip, step, done)) == Targets(job, KeptBy(dir, names, skip))
    decreases |names|
  {
    if names != [] {
      var init := names[..|names| - 1];
      var last := names[|names| - 1];
      var kept := if skip(last) then [] else [(dir, last)];
      var b := if skip(last) then [] else step(last, done + |KeptBy(dir, init, skip)|);
      SpreadTargets(job, dir, init, skip, step, done);
      assert Copies(b) == Targets(job, kept);
      SpreadSnoc(dir, names, skip, step, done);
      CopiesExtend(job, Spread(dir, init, skip, step, done), b, KeptBy(dir, init, skip), kept);
    }
  }

  lemma {:induction false} SpreadSnoc(dir: Path, names: seq<string>, skip: string -> bool, step: (string, nat) -> seq<Op>, done: nat)
    requires names != []
    ensures var init := names[..|names| - 1];
      var last := names[|names| - 1];
      && Spread(dir, names, skip, step, done)
         == Spread(dir, init, skip, step, done) + (if skip(last) then [] else step(last, done + |KeptBy(dir, init, skip)|))
      && KeptBy(dir, names, skip) == KeptBy(dir, init, skip) + (if skip(last) then [] else [(dir, last)])
  {
  }

  /** Whatever the names and the test, the reports count the kept names on
      from `done`, when each step reports one more file. */
  lemma {:induction false} SpreadNumbers(dir: Path, names: seq<string>, skip: string -> bool,
                                         step: (string, nat) -> seq<Op>, done: nat, total: nat)
    requires forall name, d {:trigger step(name, d)} :: Reports(step(name, d)) == Numbered(d, 1, total)
    ensures Reports(Spread(dir, names, skip, step, done)) == Numbered(done, |KeptBy(dir, names, skip)|, total)
    decreases |names|
  {
    if names != [] {
      var init := names[..|names| - 1];
      var last := names[|names| - 1];
      var m := |KeptBy(dir, init, skip)|;
      var b := if skip(last) then [] else step(last, done + m);
      SpreadNumbers(dir, init, skip, step, done, total);
      ReportsExtend(Spread(dir, init, skip, step, done), b, done, m, if skip(last) then 0 else 1,
                    |KeptBy(dir, names, skip)|, total);
    }
  }

  /** The files of one mirrored directory are copied in listing order, to the
      same name under the mirror. */
  lemma {:induction false} FileOpsCopies(job: Job, srcpath: Path, names: seq<string>, done: nat)
    ensures Copies(FileOps(job, srcpath, MirrorOf(job, srcpath), names, done)) == Targets(job, KeptIn(srcpath, names))
  {
    var step := FileStep(job, srcpath, MirrorOf(job, srcpath));
    forall name, d ensures Copies(step(name, d)) == Targets(job, [(srcpath, name)]) {
      FileStepCopies(job, srcpath, name, d);
    }
    SpreadTargets(job, srcpath, names, SkippedName, step, done);
  }

  /** Each copy of one directory is followed by the report of the running
      count. */
  lemma {:induction false} FileOpsReports(job: Job, srcpath: Path, dstpath: Path, names: seq<string>, done: nat)
    ensures Reports(FileOps(job, srcpath, dstpath, names, done)) == Numbered(done, |KeptIn(srcpath, names)|, job.total)
  {
    var step := FileStep(job, srcpath, dstpath);
    forall name, d ensures Reports(step(name, d)) == Numbered(d, 1, job.total) {
      FileStepReports(job, srcpath, dstpath, name, d);
    }
    SpreadNumbers(srcpath, names, SkippedName, step, done, job.total);
  }

  /** Copies to the targets of `x`, then to those of `y`, are copies to the
      targets of `x + y`. */
  lemma {:induction false} CopiesExtend(job: Job, a: seq<Op>, b: seq<Op>, x: seq<(Path, string)>, y: seq<(Path, string)>)
    requires Copies(a) == Targets(job, x)
    requires Copies(b) == Targets(job, y)
    ensures Copies(a + b) == Targets(job, x + y)
  {
    CopiesAppend(a, b);
    TargetsAppend(job, x, y);
  }

  /** Reports numbered up to `m`, then from `m` on, are numbered up to the
      sum `k`. */
  lemma {:induction false} ReportsExtend(a: seq<Op>, b: seq<Op>, done: nat, m: nat, n: nat, k: nat, total: nat)
    requires k == m + n
    requires Reports(a) == Numbered(done, m, total)
    requires Reports(b) == Numbered(done + m, n, total)
    ensures Reports(a + b) == Numbered(done, k, total)
  {
    ReportsAppend(a, b);
    NumberedAppend(done, m, n, total);
  }

  lemma {:induction false} DirOpsCopies(job: Job, fs: Store, step: WalkStep, done: nat)
    ensures Copies(DirOps(job, fs, step, done)) == Targets(job, KeptFrom(step))
  {
    if !SkippedDir(step.path) {
      var dstpath := MirrorOf(job, step.path);
      var made := if Exists(fs, dstpath) then [] else [MadeDir(dstpath)];
      FileOpsCopies(job, step.path, step.filenames, done);
      CopiesAppend(made, FileOps(job, step.path, dstpath, step.filenames, done));
    }
  }

  lemma {:induction false} DirOpsReports(job: Job, fs: Store, step: WalkStep, done: nat)
    ensures Reports(DirOps(job, fs, step, done)) == Numbered(done, |KeptFrom(step)|, job.total)
  {
    if !SkippedDir(step.path) {
      var dstpath := MirrorOf(job, step.path);
      var made := if Exists(fs, dstpath) then [] else [MadeDir(dstpath)];
      FileOpsReports(job, step.path, dstpath, step.filenames, done);
      ReportsAppend(made, FileOps(job, step.path, dstpath, step.filenames, done));
    }
  }

  /** Whatever the walk does to the store, its copies are those of its
      directories in walk order, when each directory copies its own kept
      files. */
  lemma {:induction false} WalkTargets(job: Job, fs: Store, walk: seq<WalkStep>, visit: (Store, WalkStep) -> Store,
                                       emit: (Store, WalkStep, nat) -> seq<Op>, kept: WalkStep -> seq<(Path, string)>)
    requires forall s, step, d {:trigger emit(s, step, d)} :: Copies(emit(s, step, d)) == Targets(job, kept(step))
    ensures Copies(Walk(fs, walk, visit, emit, kept).1) == Targets(job, KeptAll(walk, kept))
    decreases |walk|
  {
    if walk != [] {
      var init := walk[..|walk| - 1];
      var last := walk[|walk| - 1];
      var prev := Walk(fs, init, visit, emit, kept);
      WalkTargets(job, fs, init, visit, emit, kept);
      WalkSnoc(fs, walk, visit, emit, kept);
      CopiesExtend(job, prev.1, emit(prev.0, last, |KeptAll(init, kept)|), KeptAll(init, kept), kept(last));
    }
  }

  lemma {:induction false} WalkSnoc(fs: Store, walk: seq<WalkStep>, visit: (Store, WalkStep) -> Store,
                                    emit: (Store, WalkStep, nat) -> seq<Op>, kept: WalkStep -> seq<(Path, string)>)
    requires walk != []
    ensures var init := walk[..|walk| - 1];
      var prev := Walk(fs, init, visit, emit, kept);
      && Walk(fs, walk, visit, emit, kept).1 == prev.1 + emit(prev.0, walk[|walk| - 1], |KeptAll(init, kept)|)
      && KeptAll(walk, kept) == KeptAll(init, kept) + kept(walk[|walk| - 1])
  {
  }

  /** Whatever the walk does to the store, its reports count on from one
      directory to the next, when each directory reports its own kept
      files. */
  lemma {:induction false} WalkNumbers(fs: Store, walk: seq<WalkStep>, visit: (Store, WalkStep) -> Store,
                                       emit: (Store, WalkStep, nat) -> seq<Op>, kept: WalkStep -> seq<(Path, string)>,
                                       total: nat)
    requires forall s, step, d {:trigger emit(s, step, d)} :: Reports(emit(s, step, d)) == Numbered(d, |kept(step)|, total)
    ensures Reports(Walk(fs, walk, visit, emit, kept).1) == Numbered(0, |KeptAll(walk, kept)|, total)
    decreases |walk|
  {
    if walk != [] {
      var init := walk[..|walk| - 1];
      var last := walk[|walk| - 1];
      var prev := Walk(fs, init, visit, emit, kept);
      WalkNumbers(fs, init, visit, emit, kept, total);
      WalkSnoc(fs, walk, visit, emit, kept);
      ReportsExtend(prev.1, emit(prev.0, last, |KeptAll(init, kept)|), 0, |KeptAll(init, kept)|, |kept(last)|,
                    |KeptAll(walk, kept)|, total);
    }
  }

  /** Across a whole walk, every kept file is copied exactly once, in walk
      order, to the same name under the mirror of its directory. */
  lemma {:induction false} WalkCopies(job: Job, fs: Store, walk: seq<WalkStep>)
    ensures Copies(WalkOps(job, fs, walk).1) == Targets(job, Kept(walk))
  {
    forall s, step, d ensures Copies(Emit(job)(s, step, d)) == Targets(job, KeptFrom(step)) {
      DirOpsCopies(job, s, step, d);
    }
    WalkTargets(job, fs, walk, Visit(job), Emit(job), KeptFrom);
  }

  /** Across a whole walk, the progress bar is told 1, 2, ..., up to the
      number of kept files, each time out of the job's total. */
  lemma {:induction false} WalkReports(job: Job, fs: Store, walk: seq<WalkStep>)
    ensures Reports(WalkOps(job, fs, walk).1) == Numbered(0, |Kept(walk)|, job.total)
  {
    forall s, step, d ensures Reports(Emit(job)(s, step, d)) == Numbered(d, |KeptFrom(step)|, job.total) {
      DirOpsReports(job, s, step, d);
    }
    WalkNumbers(fs, walk, Visit(job), Emit(job), KeptFrom, job.total);
  }

  /** Making the mirrored directories touches no regular file and only adds
      directories; the mirror of every directory the walk does not skip
      exists afterwards, and every directory the walk created has all its
      ancestors as directories (`makedirs` creates missing parents). */
  lemma {:induction false} WalkMirrors(job: Job, fs: Store, walk: seq<WalkStep>)
    ensures var store := WalkOps(job, fs, walk).0;
      && store.files == fs.files
      && fs.dirs <= store.dirs
      && (forall k :: 0 <= k < |walk| && !SkippedDir(walk[k].path) ==> Exists(store, MirrorOf(job, walk[k].path)))
      && (forall q :: q in store.dirs && q !in fs.dirs ==> Ancestors(q) <= store.dirs)
    decreases |walk|
  {
    if walk != [] {
      var init := walk[..|walk| - 1];
      WalkMirrors(job, fs, init);
      var prev := WalkOps(job, fs, init).0;
      var store := WalkOps(job, fs, walk).0;
      var last := walk[|walk| - 1];
      assert store == DirStore(job, prev, last);
      assert prev.files == store.files && prev.dirs <= store.dirs;
      if !SkippedDir(last.path) && !Exists(prev, MirrorOf(job, last.path)) {
        var m := MirrorOf(job, last.path);
        MadeDirsClosed(m);
        assert store.dirs == prev.dirs + Ancestors(m) + {Norm(m)};
      }
      forall k | 0 <= k < |walk| && !SkippedDir(walk[k].path)
        ensures Exists(store, MirrorOf(job, walk[k].path))
      {
        if k < |walk| - 1 {
          assert walk[k] == init[k];
          var m := MirrorOf(job, walk[k].path);
          assert Exists(prev, m);
          assert IsFile(prev, m) ==> IsFile(store, m);
          assert IsDir(prev, m) ==> IsDir(store, m);
        }
      }
    }
  }

  /** When the source is a directory, `copy_files` copies exactly the files
      `count_files` counts, and its last progress report is the full count
      out of that count. */
  lemma {:induction false} CopyFilesCompletes(fs: Store, srcDir: Path, dstDir: Path, ts: seq<Transformation>, metadata: Metadata,
                           videoSrc: Path, scratch: nat -> Path, walk: seq<WalkStep>)
    requires IsDir(fs, srcDir) && !IsFile(fs, srcDir)
    ensures var job := FilesJob(fs, srcDir, dstDir, ts, metadata, videoSrc, scratch, walk);
      var ops := CopyPlan(fs, job, walk).1;
      && |Copies(ops)| == job.total
      && Copies(ops) == Targets(job, Kept(walk))
      && Reports(ops) == Numbered(0, job.total, job.total)
      && (job.total > 0 ==> Reports(ops)[job.total - 1] == (job.total, job.total))
  {
    var job := FilesJob(fs, srcDir, dstDir, ts, metadata, videoSrc, scratch, walk);
    WalkCopies(job, fs, walk);
    WalkReports(job, fs, walk);
    if job.total > 0 {
      NumberedAt(0, job.total, job.total, job.total - 1);
    }
  }

  /** Whatever the source path is, every progress report `copy_files` makes
      counts at least one copied file and no more than the total the bar was
      given: a single file reports nothing, a missing source walks nothing. */
  lemma {:induction false} ProgressWithinTotal(fs: Store, srcDir: Path, dstDir: Path, ts: seq<Transformation>, metadata: Metadata,
                            videoSrc: Path, scratch: nat -> Path, walk: seq<WalkStep>)
    requires WalkOf(fs, srcDir, walk)
    ensures var reports := Reports(CopyPlan(fs, FilesJob(fs, srcDir, dstDir, ts, metadata, videoSrc, scratch, walk), walk).1);
      forall i :: 0 <= i < |reports| ==> 1 <= reports[i].0 <= reports[i].1
  {
    var job := FilesJob(fs, srcDir, dstDir, ts, metadata, videoSrc, scratch, walk);
    var ops := CopyPlan(fs, job, walk).1;
    if IsFile(fs, srcDir) && !EndsWith(srcDir, ".yaml") {
      assert Reports(ops) == Reports(ops[..0]) + [];
    } else if IsDir(fs, srcDir) {
      WalkReports(job, fs, walk);
      forall i | 0 <= i < |Reports(ops)| ensures 1 <= Reports(ops)[i].0 <= Reports(ops)[i].1 {
        NumberedAt(0, job.total, job.total, i);
      }
    }
  }

  /** The copies made by the first `n` operations are the first copies of all
      of them. */
  lemma {:induction false} CopiesOfPrefix(ops: seq<Op>, n: nat)
    requires n <= |ops|
    ensures Copies(ops[..n]) <= Copies(ops)
    decreases |ops|
  {
    if n < |ops| {
      var init := ops[..|ops| - 1];
      assert init[..n] == ops[..n];
      CopiesOfPrefix(init, n);
    } else {
      assert ops[..n] == ops;
    }
  }

  /** The reports made by the first `n` operations are the first reports of
      all of them. */
  lemma {:induction false} ReportsOfPrefix(ops: seq<Op>, n: nat)
    requires n <= |ops|
    ensures Reports(ops[..n]) <= Reports(ops)
    decreases |ops|
  {
    if n < |ops| {
      var init := ops[..|ops| - 1];
      assert init[..n] == ops[..n];
      ReportsOfPrefix(init, n);
    } else {
      assert ops[..n] == ops;
    }
  }

  /** The first `m` of the reports `from + 1`, ..., `from + n`. */
  lemma {:induction false} NumberedPrefix(from: nat, n: nat, total: nat, m: nat)
    requires m <= n
    ensures Numbered(from, n, total)[..m] == Numbered(from, m, total)
    decreases n
  {
    if m < n {
      NumberedPrefix(from, n - 1, total, m);
      assert Numbered(from, n, total)[..n - 1] == Numbered(from, n - 1, total);
    }
  }

  /** `copy_files` catches nothing: a transformation, a download or a copy
      that raises ends the walk there. Whatever operation that is, the files
      copied before it are the first of the files `count_files` counts, in
      walk order, and the progress bar was told 1, 2, ... out of the full
      count and never more than that count. */
  lemma {:induction false} InterruptedCopyFiles(fs: Store, srcDir: Path, dstDir: Path, ts: seq<Transformation>, metadata: Metadata,
                             videoSrc: Path, scratch: nat -> Path, walk: seq<WalkStep>, n: nat)
    requires IsDir(fs, srcDir) && !IsFile(fs, srcDir)
    requires n <= |CopyPlan(fs, FilesJob(fs, srcDir, dstDir, ts, metadata, videoSrc, scratch, walk), walk).1|
    ensures var job := FilesJob(fs, srcDir, dstDir, ts, metadata, videoSrc, scratch, walk);
      var done := CopyPlan(fs, job, walk).1[..n];
      && Copies(done) <= Targets(job, Kept(walk))
      && |Reports(done)| <= job.total
      && Reports(done) == Numbered(0, |Reports(done)|, job.total)
  {
    var job := FilesJob(fs, srcDir, dstDir, ts, metadata, videoSrc, scratch, walk);
    var ops := CopyPlan(fs, job, walk).1;
    CopyFilesCompletes(fs, srcDir, dstDir, ts, metadata, videoSrc, scratch, walk);
    CopiesOfPrefix(ops, n);
    ReportsOfPrefix(ops, n);
    var r := Reports(ops[..n]);
    assert r == Reports(ops)[..|r|];
    NumberedPrefix(0, job.total, job.total, |r|);
  }
}
