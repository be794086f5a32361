/** Splitting a bundled directory into parts of bounded size (`split`) and
    naming the archive of each part (`iso_maker`, `zip_maker`). Sizes are
    whole bytes: the source converts them to megabytes in floating point and
    compares with the limit in megabytes, which the model does exactly by
    comparing bytes with the limit times 2^20. */
module Convert {
  import opened Wrappers
  import opened Strings
  import opened PosixPath
  import opened FileSystem
  import opened Zipper

  const MiB: nat := 1048576

  /** What the walk of `split` yields, in order: each file with its size, and
      each empty leaf directory. */
  datatype Item = FileItem(path: Path, size: nat) | DirItem(path: Path)

  /** What an item costs: its size for a file, nothing for a directory. */
  function Cost(x: Item): nat {
    if x.FileItem? then x.size else 0
  }

  /** The total cost of a part. */
  function Used(items: seq<Item>): nat {
    if items == [] then 0 else Used(items[..|items| - 1]) + Cost(items[|items| - 1])
  }

  /** How many files a part holds. */
  function FilesIn(items: seq<Item>): nat {
    if items == [] then 0 else FilesIn(items[..|items| - 1]) + (if items[|items| - 1].FileItem? then 1 else 0)
  }

  /** The path of each item, in order. */
  function PathsOf(items: seq<Item>): (r: seq<Path>)
    ensures |r| == |items|
    ensures forall k :: 0 <= k < |items| ==> r[k] == items[k].path
  {
    if items == [] then [] else PathsOf(items[..|items| - 1]) + [items[|items| - 1].path]
  }

  // ---------------------------------------------------------------------------
  // The walk

  /** The files `names` of `dir`, with the sizes `stat` reports. */
  function FileItems(dir: Path, names: seq<string>, sizeOf: Path -> nat): (r: seq<Item>)
    ensures |r| == |names|
  {
    if names == [] then []
    else
      var src := Join(dir, names[|names| - 1]);
      FileItems(dir, names[..|names| - 1], sizeOf) + [FileItem(src, sizeOf(src))]
  }

  /** What one walked directory adds: its files, then itself when it has
      neither files nor subdirectories. */
  function StepItems(step: WalkStep, sizeOf: Path -> nat): seq<Item> {
    FileItems(step.path, step.filenames, sizeOf)
    + (if step.dirnames == [] && step.filenames == [] then [DirItem(step.path)] else [])
  }

  function WalkItems(walk: seq<WalkStep>, sizeOf: Path -> nat): seq<Item> {
    if walk == [] then [] else WalkItems(walk[..|walk| - 1], sizeOf) + StepItems(walk[|walk| - 1], sizeOf)
  }

  lemma {:induction false} PathsOfAppend(a: seq<Item>, b: seq<Item>)
    ensures PathsOf(a + b) == PathsOf(a) + PathsOf(b)
  {
    if b == [] {
      assert a + b == a;
    } else {
      assert (a + b)[..|a + b| - 1] == a + b[..|b| - 1];
      PathsOfAppend(a, b[..|b| - 1]);
    }
  }

  lemma {:induction false} FileItemsPaths(dir: Path, names: seq<string>, sizeOf: Path -> nat)
    ensures PathsOf(FileItems(dir, names, sizeOf)) == NamesUnder(dir, names)
  {
    if names != [] {
      var init := names[..|names| - 1];
      FileItemsPaths(dir, init, sizeOf);
      var src := Join(dir, names[|names| - 1]);
      PathsOfAppend(FileItems(dir, init, sizeOf), [FileItem(src, sizeOf(src))]);
      assert PathsOf([FileItem(src, sizeOf(src))]) == [src] by {
        assert [FileItem(src, sizeOf(src))][..0] == [];
      }
    }
  }

  /** `split` walks the same paths, in the same order, as the default file
      list of `to_zip`: every file, then each empty leaf directory. */
  lemma {:induction false} WalkItemsAreDefaultFileList(walk: seq<WalkStep>, sizeOf: Path -> nat)
    ensures PathsOf(WalkItems(walk, sizeOf)) == DefaultFileList(walk)
  {
    if walk != [] {
      var init := walk[..|walk| - 1];
      var step := walk[|walk| - 1];
      var leaf := if step.dirnames == [] && step.filenames == [] then [DirItem(step.path)] else [];
      WalkItemsAreDefaultFileList(init, sizeOf);
      FileItemsPaths(step.path, step.filenames, sizeOf);
      PathsOfAppend(WalkItems(init, sizeOf), StepItems(step, sizeOf));
      PathsOfAppend(FileItems(step.path, step.filenames, sizeOf), leaf);
      assert PathsOf(leaf) == (if step.filenames == [] && step.dirnames == [] then [step.path] else []) by {
        if leaf != [] {
          assert leaf[..0] == [];
        }
      }
    }
  }

  // ---------------------------------------------------------------------------
  // Packing

  /** The variables of `split`: the finished parts, the current part and its
      free space. */
  datatype Packing = Packing(parts: seq<seq<Item>>, current: seq<Item>, free: int)

  /** All parts, the current one last: what `split` returns once the walk is
      over. */
  function Parts(st: Packing): seq<seq<Item>> {
    st.parts + [st.current]
  }

  /** One item of the walk. A file that does not fit the free space closes
      the current part and starts a new one. As written (`asWritten`), that
      happens even when the current part is still empty; the corrected rule
      keeps the file in an empty current part. A directory costs nothing and
      always joins the current part. */
  function Place(st: Packing, x: Item, budget: int, asWritten: bool): Packing {
    if x.FileItem? && st.free < x.size && (asWritten || st.current != []) then
      Packing(st.parts + [st.current], [x], budget - x.size)
    else
      Packing(st.parts, st.current + [x], st.free - Cost(x))
  }

  function PackFrom(st: Packing, items: seq<Item>, budget: int, asWritten: bool): Packing {
    if items == [] then st
    else Place(PackFrom(st, items[..|items| - 1], budget, asWritten), items[|items| - 1], budget, asWritten)
  }

  /** The packing of `items` into parts of at most `budget` bytes. */
  function Pack(items: seq<Item>, budget: int, asWritten: bool): seq<seq<Item>> {
    Parts(PackFrom(Packing([], [], budget), items, budget, asWritten))
  }

  /** The parts, one after the other. */
  function Flatten<T>(parts: seq<seq<T>>): seq<T> {
    if parts == [] then [] else Flatten(parts[..|parts| - 1]) + parts[|parts| - 1]
  }

  /** A part closes only when the next file does not fit: each part after
      the first starts with a file that would have overflowed the part before
      it. */
  ghost predicate Greedy(parts: seq<seq<Item>>, budget: int) {
    forall j :: 0 < j < |parts| ==>
      parts[j] != [] && parts[j][0].FileItem? && Used(parts[j - 1]) + parts[j][0].size > budget
  }

  /** A part never closes early: every file that is not the first item of
      its part fitted into the part so far. */
  ghost predicate Fits(parts: seq<seq<Item>>, budget: int) {
    forall i, k :: 0 <= i < |parts| && 0 < k < |parts[i]| && parts[i][k].FileItem? ==>
      Used(parts[i][..k]) + parts[i][k].size <= budget
  }

  /** Each part is within the budget unless it holds exactly one file. */
  ghost predicate WithinBudget(parts: seq<seq<Item>>, budget: int) {
    forall i :: 0 <= i < |parts| ==> Used(parts[i]) <= budget || FilesIn(parts[i]) == 1
  }

  lemma {:induction false} UsedSnoc(c: seq<Item>, x: Item)
    ensures Used(c + [x]) == Used(c) + Cost(x)
    ensures FilesIn(c + [x]) == FilesIn(c) + (if x.FileItem? then 1 else 0)
  {
    assert (c + [x])[..|c|] == c;
  }

  /** The free space is the budget minus what the current part holds. */
  lemma {:induction false} PackFree(items: seq<Item>, budget: int, asWritten: bool)
    ensures var st := PackFrom(Packing([], [], budget), items, budget, asWritten);
      st.free == budget - Used(st.current)
  {
    if items != [] {
      var st := PackFrom(Packing([], [], budget), items[..|items| - 1], budget, asWritten);
      PackFree(items[..|items| - 1], budget, asWritten);
      UsedSnoc(st.current, items[|items| - 1]);
      var x := items[|items| - 1];
      assert [x][..0] == [];
    }
  }

  /** Concatenating the parts gives back the walk: nothing lost, repeated or
      reordered. */
  lemma {:induction false} PackFlatten(items: seq<Item>, budget: int, asWritten: bool)
    ensures Flatten(Pack(items, budget, asWritten)) == items
  {
    if items == [] {
      var none: seq<seq<Item>> := [[]];
      assert Flatten(none) == Flatten(none[..0]) + [];
    } else {
      var init := items[..|items| - 1];
      var x := items[|items| - 1];
      var st := PackFrom(Packing([], [], budget), init, budget, asWritten);
      PackFlatten(init, budget, asWritten);
      assert Flatten(Parts(st)) == Flatten(st.parts) + st.current by {
        assert Parts(st)[..|Parts(st)| - 1] == st.parts;
      }
      var next := Place(st, x, budget, asWritten);
      if next.parts == st.parts + [st.current] {
        assert Parts(next)[..|Parts(next)| - 1] == Parts(st);
      } else {
        assert Parts(next)[..|Parts(next)| - 1] == st.parts;
      }
      assert items == init + [x];
    }
  }

  /** The step of `Greedy`: placing one item keeps the parts greedy. */
  lemma {:induction false} PlaceKeepsGreedy(st: Packing, x: Item, budget: int, asWritten: bool)
    requires Greedy(Parts(st), budget) && st.free == budget - Used(st.current)
    ensures Greedy(Parts(Place(st, x, budget, asWritten)), budget)
  {
    var next := Place(st, x, budget, asWritten);
    var before: seq<seq<Item>> := Parts(st);
    var after: seq<seq<Item>> := Parts(next);
    if next.parts == st.parts + [st.current] && next.current == [x] {
      assert after == before + [[x]];
      forall j: int | 0 < j < |after|
        ensures after[j] != [] && after[j][0].FileItem? && Used(after[j - 1]) + after[j][0].size > budget
      {
        if j < |before| {
          assert after[j - 1] == before[j - 1] && after[j] == before[j];
        }
      }
    } else {
      assert next.parts == st.parts && next.current == st.current + [x];
      forall j: int | 0 < j < |after|
        ensures after[j] != [] && after[j][0].FileItem? && Used(after[j - 1]) + after[j][0].size > budget
      {
        assert after[j - 1] == before[j - 1];
        if j < |st.parts| {
          assert after[j] == before[j];
        } else {
          assert before[j] == st.current && after[j] == st.current + [x];
        }
      }
    }
  }

  lemma {:induction false} PackGreedy(items: seq<Item>, budget: int, asWritten: bool)
    ensures Greedy(Pack(items, budget, asWritten), budget)
  {
    if items != [] {
      var init := items[..|items| - 1];
      PackGreedy(init, budget, asWritten);
      PackFree(init, budget, asWritten);
      PlaceKeepsGreedy(PackFrom(Packing([], [], budget), init, budget, asWritten), items[|items| - 1], budget, asWritten);
    }
  }

  /** The step of `Fits`. */
  lemma {:induction false} PlaceKeepsFits(st: Packing, x: Item, budget: int, asWritten: bool)
    requires Fits(Parts(st), budget) && st.free == budget - Used(st.current)
    ensures Fits(Parts(Place(st, x, budget, asWritten)), budget)
  {
    var next := Place(st, x, budget, asWritten);
    var before: seq<seq<Item>> := Parts(st);
    var after: seq<seq<Item>> := Parts(next);
    if next.parts == st.parts + [st.current] && next.current == [x] {
      assert after == before + [[x]];
      forall i: int, k: int | 0 <= i < |after| && 0 < k < |after[i]| && after[i][k].FileItem?
        ensures Used(after[i][..k]) + after[i][k].size <= budget
      {
        assert i < |before|;
        assert after[i] == before[i];
      }
    } else {
      var c := st.current;
      assert next.parts == st.parts && next.current == c + [x];
      forall i: int, k: int | 0 <= i < |after| && 0 < k < |after[i]| && after[i][k].FileItem?
        ensures Used(after[i][..k]) + after[i][k].size <= budget
      {
        if i < |st.parts| {
          assert after[i] == before[i];
        } else {
          assert after[i] == c + [x] && before[i] == c;
          if k < |c| {
            assert (c + [x])[..k] == c[..k] && (c + [x])[k] == c[k];
          } else {
            assert (c + [x])[..k] == c;
          }
        }
      }
    }
  }

  lemma {:induction false} PackFits(items: seq<Item>, budget: int, asWritten: bool)
    ensures Fits(Pack(items, budget, asWritten), budget)
  {
    if items != [] {
      var init := items[..|items| - 1];
      PackFits(init, budget, asWritten);
      PackFree(init, budget, asWritten);
      PlaceKeepsFits(PackFrom(Packing([], [], budget), init, budget, asWritten), items[|items| - 1], budget, asWritten);
    }
  }

  /** The step of `WithinBudget`. */
  lemma {:induction false} PlaceKeepsWithinBudget(st: Packing, x: Item, budget: int, asWritten: bool)
    requires WithinBudget(Parts(st), budget) && st.free == budget - Used(st.current)
    ensures WithinBudget(Parts(Place(st, x, budget, asWritten)), budget)
  {
    var c := st.current;
    WithinBudgetSplit(st.parts, c, budget);
    UsedSnoc([], x);
    assert [] + [x] == [x];
    if x.FileItem? && st.free < x.size && (asWritten || c != []) {
      WithinBudgetSnoc(Parts(st), [x], budget);
    } else {
      UsedSnoc(c, x);
      WithinBudgetSnoc(st.parts, c + [x], budget);
    }
  }

  lemma {:induction false} WithinBudgetSplit(parts: seq<seq<Item>>, p: seq<Item>, budget: int)
    requires WithinBudget(parts + [p], budget)
    ensures WithinBudget(parts, budget) && (Used(p) <= budget || FilesIn(p) == 1)
  {
    assert (parts + [p])[|parts|] == p;
    forall i | 0 <= i < |parts| ensures Used(parts[i]) <= budget || FilesIn(parts[i]) == 1 {
      assert (parts + [p])[i] == parts[i];
    }
  }

  lemma {:induction false} WithinBudgetSnoc(parts: seq<seq<Item>>, p: seq<Item>, budget: int)
    requires WithinBudget(parts, budget) && (Used(p) <= budget || FilesIn(p) == 1)
    ensures WithinBudget(parts + [p], budget)
  {
    forall i | 0 <= i < |parts| + 1 ensures Used((parts + [p])[i]) <= budget || FilesIn((parts + [p])[i]) == 1 {
      if i < |parts| {
        assert (parts + [p])[i] == parts[i];
      } else {
        assert (parts + [p])[i] == p;
      }
    }
  }

  lemma {:induction false} PackWithinBudget(items: seq<Item>, budget: int, asWritten: bool)
    requires budget >= 0
    ensures WithinBudget(Pack(items, budget, asWritten), budget)
  {
    if items != [] {
      var init := items[..|items| - 1];
      PackWithinBudget(init, budget, asWritten);
      PackFree(init, budget, asWritten);
      PlaceKeepsWithinBudget(PackFrom(Packing([], [], budget), init, budget, asWritten), items[|items| - 1], budget, asWritten);
    }
  }

  /** Only the first part can be empty. It is empty when there is nothing to
      pack, or, as written, when the first item is a file larger than the
      budget; the corrected rule never leaves it empty otherwise. */
  lemma {:induction false} PackEmptyParts(items: seq<Item>, budget: int, asWritten: bool)
    ensures var parts := Pack(items, budget, asWritten);
      && (forall i :: 0 < i < |parts| ==> parts[i] != [])
      && (parts[0] == [] <==> items == [] || (asWritten && items[0].FileItem? && items[0].size > budget))
  {
    if items != [] {
      var init := items[..|items| - 1];
      var x := items[|items| - 1];
      var st := PackFrom(Packing([], [], budget), init, budget, asWritten);
      PackEmptyParts(init, budget, asWritten);
      PackFree(init, budget, asWritten);
      var next := Place(st, x, budget, asWritten);
      var before: seq<seq<Item>> := Parts(st);
      var after: seq<seq<Item>> := Parts(next);
      if init == [] {
        assert st == Packing([], [], budget);
        assert items[0] == x;
      } else {
        assert items[0] == init[0];
      }
      if next.parts == st.parts + [st.current] && next.current == [x] {
        assert after == before + [[x]];
      } else {
        assert next.parts == st.parts && next.current == st.current + [x];
        forall i: int | 0 < i < |after| ensures after[i] != [] {
          if i < |st.parts| {
            assert after[i] == before[i];
          }
        }
        if st.parts != [] {
          assert after[0] == before[0];
        }
      }
    }
  }

  // ---------------------------------------------------------------------------
  // split

  /** The paths of each part, as `split` returns them. */
  function PartPaths(parts: seq<seq<Item>>): (r: seq<seq<Path>>)
    ensures |r| == |parts|
  {
    if parts == [] then [] else PartPaths(parts[..|parts| - 1]) + [PathsOf(parts[|parts| - 1])]
  }

  /** `split(dst_dir, max_size)` with the corrected rule, given the walk of
      `dst_dir` and `stat`'s sizes. */
  method Split(fs: Store, dstDir: Path, walk: seq<WalkStep>, sizeOf: Path -> nat, maxSize: int) returns (parts: seq<seq<Path>>)
    requires WalkOf(fs, dstDir, walk)
    ensures parts == PartPaths(Pack(WalkItems(walk, sizeOf), maxSize * MiB, false))
  {
    var st := SplitWalk(walk, sizeOf, maxSize * MiB);
    parts := PartsPaths(Parts(st));
  }

  /** The walk loop of `split`. */
  method SplitWalk(walk: seq<WalkStep>, sizeOf: Path -> nat, budget: int) returns (st: Packing)
    ensures st == PackFrom(Packing([], [], budget), WalkItems(walk, sizeOf), budget, false)
  {
    st := Packing([], [], budget);
    var i := 0;
    while i < |walk|
      invariant 0 <= i <= |walk|
      invariant st == PackFrom(Packing([], [], budget), WalkItems(walk[..i], sizeOf), budget, false)
    {
      assert walk[..i + 1][..i] == walk[..i];
      PackFromAppend(Packing([], [], budget), WalkItems(walk[..i], sizeOf), StepItems(walk[i], sizeOf), budget, false);
      st := SplitDir(st, walk[i], sizeOf, budget);
      i := i + 1;
    }
    assert walk[..i] == walk;
  }

  /** The paths of each finished part, as `split` collects them. */
  method PartsPaths(all: seq<seq<Item>>) returns (parts: seq<seq<Path>>)
    ensures parts == PartPaths(all)
  {
    parts := [];
    var j := 0;
    while j < |all|
      invariant 0 <= j <= |all|
      invariant parts == PartPaths(all[..j])
    {
      assert all[..j + 1][..j] == all[..j];
      parts := parts + [PathsOf(all[j])];
      j := j + 1;
    }
    assert all[..j] == all;
  }

  /** One turn of the walk loop of `split`: the files of one directory, then
      the directory itself when it is an empty leaf. */
  method SplitDir(st0: Packing, step: WalkStep, sizeOf: Path -> nat, budget: int) returns (st: Packing)
    ensures st == PackFrom(st0, StepItems(step, sizeOf), budget, false)
  {
    st := PackFiles(st0, step.path, step.filenames, sizeOf, budget);
    ghost var files := FileItems(step.path, step.filenames, sizeOf);
    if step.dirnames == [] && step.filenames == [] {
      st := Packing(st.parts, st.current + [DirItem(step.path)], st.free);
      PackFromSnoc(st0, files, DirItem(step.path), budget, false);
      assert StepItems(step, sizeOf) == files + [DirItem(step.path)];
    } else {
      assert StepItems(step, sizeOf) == files;
    }
  }

  /** The loop of `split` over the files of one directory. */
  method PackFiles(st0: Packing, dir: Path, names: seq<string>, sizeOf: Path -> nat, budget: int) returns (st: Packing)
    ensures st == PackFrom(st0, FileItems(dir, names, sizeOf), budget, false)
  {
    st := st0;
    var j := 0;
    while j < |names|
      invariant 0 <= j <= |names|
      invariant st == PackFrom(st0, FileItems(dir, names[..j], sizeOf), budget, false)
    {
      var src := Join(dir, names[j]);
      var size := sizeOf(src);
      FileItemsSnoc(dir, names, j, sizeOf);
      PackFromSnoc(st0, FileItems(dir, names[..j], sizeOf), FileItem(src, size), budget, false);
      st := PlaceFile(st, src, size, budget);
      j := j + 1;
    }
    assert names[..j] == names;
  }

  /** One file of the loop of `split`: a file that does not fit closes a
      non-empty current part first. */
  method PlaceFile(st0: Packing, src: Path, size: nat, budget: int) returns (st: Packing)
    ensures st == Place(st0, FileItem(src, size), budget, false)
  {
    st := st0;
    if st.free < size && st.current != [] {
      st := Packing(st.parts + [st.current], [], budget);
    }
    st := Packing(st.parts, st.current + [FileItem(src, size)], st.free - size);
  }

  lemma {:induction false} FileItemsSnoc(dir: Path, names: seq<string>, j: nat, sizeOf: Path -> nat)
    requires j < |names|
    ensures FileItems(dir, names[..j + 1], sizeOf)
         == FileItems(dir, names[..j], sizeOf) + [FileItem(Join(dir, names[j]), sizeOf(Join(dir, names[j])))]
  {
    assert names[..j + 1][..j] == names[..j];
  }

  lemma {:induction false} PackFromSnoc(st: Packing, a: seq<Item>, x: Item, budget: int, asWritten: bool)
    ensures PackFrom(st, a + [x], budget, asWritten) == Place(PackFrom(st, a, budget, asWritten), x, budget, asWritten)
  {
    assert (a + [x])[..|a|] == a;
  }

  lemma {:induction false} PackFromAppend(st: Packing, a: seq<Item>, b: seq<Item>, budget: int, asWritten: bool)
    ensures PackFrom(st, a + b, budget, asWritten) == PackFrom(PackFrom(st, a, budget, asWritten), b, budget, asWritten)
  {
    if b == [] {
      assert a + b == a;
    } else {
      assert (a + b)[..|a + b| - 1] == a + b[..|b| - 1];
      PackFromAppend(st, a, b[..|b| - 1], budget, asWritten);
    }
  }

  /** The paths of the parts, one part after the other, are the paths of
      the items packed. */
  lemma {:induction false} PartPathsFlatten(parts: seq<seq<Item>>)
    ensures Flatten(PartPaths(parts)) == PathsOf(Flatten(parts))
  {
    if parts != [] {
      var init := parts[..|parts| - 1];
      PartPathsFlatten(init);
      assert PartPaths(parts)[..|parts| - 1] == PartPaths(init);
      PathsOfAppend(Flatten(init), parts[|parts| - 1]);
    }
  }

  /** The parts `split` returns list, between them, exactly the paths of the
      default file list of `to_zip`, in the same order, under either rule. */
  lemma {:induction false} SplitCoversWalk(walk: seq<WalkStep>, sizeOf: Path -> nat, budget: int, asWritten: bool)
    ensures Flatten(PartPaths(Pack(WalkItems(walk, sizeOf), budget, asWritten))) == DefaultFileList(walk)
  {
    var items := WalkItems(walk, sizeOf);
    PartPathsFlatten(Pack(items, budget, asWritten));
    PackFlatten(items, budget, asWritten);
    WalkItemsAreDefaultFileList(walk, sizeOf);
  }

  // ---------------------------------------------------------------------------
  // Archive names

  /** Python's `"%d" % n` for a natural number. */
  function Decimal(n: nat): (r: string)
    ensures r != []
    ensures forall k :: 0 <= k < |r| ==> '0' <= r[k] <= '9'
  {
    if n < 10 then [Digit(n)] else Decimal(n / 10) + [Digit(n % 10)]
  }

  function Digit(d: nat): char
    requires d < 10
  {
    "0123456789"[d]
  }

  lemma {:induction false} DigitInjective(a: nat, b: nat)
    requires a < 10 && b < 10 && Digit(a) == Digit(b)
    ensures a == b
  {
  }

  /** Different numbers print differently. */
  lemma {:induction false} DecimalInjective(a: nat, b: nat)
    requires Decimal(a) == Decimal(b)
    ensures a == b
  {
    var s := Decimal(a);
    if a < 10 && b < 10 {
      DigitInjective(a, b);
    } else if a >= 10 && b >= 10 {
      assert Decimal(a / 10) == s[..|s| - 1] == Decimal(b / 10);
      DecimalInjective(a / 10, b / 10);
      DigitInjective(a % 10, b % 10);
    }
  }

  /** The file name of part `i` (counted from 0) of division `div`:
      `<div><i+1><ext>`. */
  function PartName(div: string, i: nat, ext: string): string {
    div + Decimal(i + 1) + ext
  }

  /** The archive of part `i` of division `div`, in `dst`. */
  function PartArchive(dst: Path, div: string, i: nat, ext: string): Path {
    Join(dst, PartName(div, i, ext))
  }

  /** No two parts share a file name. */
  lemma {:induction false} PartNamesDistinct(div: string, ext: string, i: nat, j: nat)
    requires i != j
    ensures PartName(div, i, ext) != PartName(div, j, ext)
  {
    var a := PartName(div, i, ext);
    var b := PartName(div, j, ext);
    if a == b {
      assert |Decimal(i + 1)| == |Decimal(j + 1)|;
      assert Decimal(i + 1) == a[|div|..|a| - |ext|];
      assert Decimal(j + 1) == b[|div|..|b| - |ext|];
      DecimalInjective(i + 1, j + 1);
    }
  }

  /** Parts are numbered from 1, and no two parts share an archive. */
  lemma {:induction false} PartArchivesDistinct(dst: Path, div: string, ext: string, i: nat, j: nat)
    requires i != j
    ensures PartArchive(dst, div, i, ext) != PartArchive(dst, div, j, ext)
  {
    var a := PartName(div, i, ext);
    var b := PartName(div, j, ext);
    PartNamesDistinct(div, ext, i, j);
    assert StartsWith(a, "/") <==> StartsWith(b, "/") by {
      if div == [] {
        assert a[..1] == Decimal(i + 1)[..1] && b[..1] == Decimal(j + 1)[..1];
      } else {
        assert a[..1] == div[..1] == b[..1];
      }
    }
    if Join(dst, a) == Join(dst, b) {
      JoinCancel(dst, a, b);
    }
  }

  // ---------------------------------------------------------------------------
  // iso_maker and zip_maker

  /** One archive to write: its path and the file list handed to the
      archiver (`None` when the whole directory is archived). */
  datatype ArchiveJob = ArchiveJob(archive: Path, filelist: Option<seq<Path>>)

  /** What `iso_maker(dst_dir, dst, div, size)` and `zip_maker` ask the
      archiver for, `ext` being ".iso" or ".zip". A missing `dst_dir` gives
      nothing (the source reports it and returns); without a size the whole
      directory goes into `<div><ext>`; with one, each part of `split` goes
      into its own numbered archive. */
  method MakeArchives(fs: Store, dstDir: Path, dst: Path, div: string, size: Option<int>, ext: string,
                      walk: seq<WalkStep>, sizeOf: Path -> nat) returns (jobs: seq<ArchiveJob>)
    requires WalkOf(fs, dstDir, walk)
    ensures !IsDir(fs, dstDir) ==> jobs == []
    ensures IsDir(fs, dstDir) && size.None? ==> jobs == [ArchiveJob(Join(dst, div + ext), None)]
    ensures IsDir(fs, dstDir) && size.Some? ==>
      var parts := PartPaths(Pack(WalkItems(walk, sizeOf), size.value * MiB, false));
      && |jobs| == |parts|
      && forall i :: 0 <= i < |jobs| ==> jobs[i] == ArchiveJob(PartArchive(dst, div, i, ext), Some(parts[i]))
  {
    if !IsDir(fs, dstDir) {
      return [];
    }
    if size.None? {
      return [ArchiveJob(Join(dst, div + ext), None)];
    }
    var parts := Split(fs, dstDir, walk, sizeOf, size.value);
    jobs := NumberParts(dst, div, ext, parts);
  }

  /** The loop of `iso_maker` and `zip_maker` over the parts, numbering
      them from 1. */
  method NumberParts(dst: Path, div: string, ext: string, parts: seq<seq<Path>>) returns (jobs: seq<ArchiveJob>)
    ensures |jobs| == |parts|
    ensures forall i :: 0 <= i < |jobs| ==> jobs[i] == ArchiveJob(PartArchive(dst, div, i, ext), Some(parts[i]))
  {
    jobs := [];
    var i := 0;
    while i < |parts|
      invariant 0 <= i <= |parts|
      invariant |jobs| == i
      invariant forall k :: 0 <= k < i ==> jobs[k] == ArchiveJob(PartArchive(dst, div, k, ext), Some(parts[k]))
    {
      jobs := jobs + [ArchiveJob(Join(dst, div + Decimal(i + 1) + ext), Some(parts[i]))];
      i := i + 1;
    }
  }

  /** With the corrected rule, every numbered archive holds exactly its own
      part: no part is empty unless there is nothing at all to archive, so
      `to_zip` never falls back to the whole tree. */
  lemma {:induction false} PartsArchiveOwnFiles(walk: seq<WalkStep>, sizeOf: Path -> nat, budget: int, i: nat)
    requires DefaultFileList(walk) != []
    requires i < |Pack(WalkItems(walk, sizeOf), budget, false)|
    ensures var parts := PartPaths(Pack(WalkItems(walk, sizeOf), budget, false));
      parts[i] != [] && FileListFor(Some(parts[i]), walk) == parts[i]
  {
    var items := WalkItems(walk, sizeOf);
    var pack := Pack(items, budget, false);
    WalkItemsAreDefaultFileList(walk, sizeOf);
    assert items != [] by {
      assert |PathsOf(items)| == |items|;
    }
    PackEmptyParts(items, budget, false);
    assert pack[i] != [];
    PartPathsAt(pack, i);
    assert |PathsOf(pack[i])| == |pack[i]|;
  }

  /** As written, a first file larger than the limit leaves the first part
      empty, and `to_zip` given that empty list archives the whole tree into
      the first archive. */
  lemma {:induction false} AsWrittenFirstArchiveHoldsEverything(walk: seq<WalkStep>, sizeOf: Path -> nat, budget: int)
    requires WalkItems(walk, sizeOf) != []
    requires WalkItems(walk, sizeOf)[0].FileItem? && WalkItems(walk, sizeOf)[0].size > budget
    ensures var parts := PartPaths(Pack(WalkItems(walk, sizeOf), budget, true));
      parts[0] == [] && FileListFor(Some(parts[0]), walk) == DefaultFileList(walk)
  {
    var items := WalkItems(walk, sizeOf);
    PackEmptyParts(items, budget, true);
    PartPathsAt(Pack(items, budget, true), 0);
  }

  lemma {:induction false} PartPathsAt(parts: seq<seq<Item>>, i: nat)
    requires i < |parts|
    ensures PartPaths(parts)[i] == PathsOf(parts[i])
  {
    if i < |parts| - 1 {
      PartPathsAt(parts[..|parts| - 1], i);
    }
  }
}
