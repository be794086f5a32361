/** The video transformation (VideoTransformation in
    transformations/transformvideo.py). For every video file it copies, it
    works out a player page and a list entry, and it remembers which
    destination directories already have a division marker in the list. At the
    end of a division the list is rendered as an index page and emptied.

    Reading the per-video YAML descriptor, testing for a file and downloading a
    thumbnail are foreign calls. They are passed in as functions. Template
    rendering is left out: the model returns what the templates are given. */
module VideoTransform {
  import opened Wrappers
  import opened Strings
  import opened PosixPath
  import opened FileSystem
  import Seqs

  // ---------------------------------------------------------------------------
  // Which files are videos

  /** The extension list as written. A missing pair of commas fuses ".flv",
      ".vob" and ".ogv" into the single entry ".flv.vob.ogv". */
  const Extensions: seq<string> :=
    [".webm", ".mkv", ".flv.vob.ogv", ".drc", ".mng", ".avi",
     ".mov", ".qt", ".wmv", ".yuv", ".rm", ".rmvb", ".mp4", ".m4v",
     ".asf", ".mpg", ".mpeg", ".m2v", ".svi", ".3gp", ".3g2", ".mxf",
     ".roq", ".nsv"]

  /** `applies`: the last extension, compared case-sensitively. */
  predicate Applies(src: Path) {
    SplitExt(src).1 in Extensions
  }

  /** The fused entry can never be an extension returned by `splitext`, so no
      file is claimed through it. */
  lemma {:induction false} FusedEntryNeverMatches(src: Path)
    ensures SplitExt(src).1 != ".flv.vob.ogv"
  {
  }

  /** For a file `stem + ext` with an ordinary stem and a one-dot extension,
      the decision rests on the extension alone. */
  lemma {:induction false} AppliesByExtension(dir: Path, stem: string, ext: string)
    requires '/' !in stem && '/' !in ext
    requires |ext| >= 1 && ext[0] == '.' && '.' !in ext[1..]
    requires exists k :: 0 <= k < |stem| && stem[k] != '.'
    ensures Applies(Join(dir, stem + ext)) <==> ext in Extensions
  {
    SplitExtOf(dir, stem, ext);
  }

  /** `.flv`, `.vob` and `.ogv` files, listed only inside the fused entry, are
      not claimed. */
  lemma {:induction false} FusedExtensionsNotClaimed(dir: Path, stem: string, ext: string)
    requires '/' !in stem
    requires exists k :: 0 <= k < |stem| && stem[k] != '.'
    requires ext == ".flv" || ext == ".vob" || ext == ".ogv"
    ensures !Applies(Join(dir, stem + ext))
  {
    assert ext[1..] == ext[1..4];
    AppliesByExtension(dir, stem, ext);
    FusedNotListedApart();
  }

  lemma {:induction false} FusedNotListedApart()
    ensures ".flv" !in Extensions && ".vob" !in Extensions && ".ogv" !in Extensions
  {
    forall e | e in Extensions ensures e != ".flv" && e != ".vob" && e != ".ogv" {
      assert |e| != 4 || e[1] in "wmdaqyrn3sM" || e == ".mkv" || e == ".mov" || e == ".m4v" || e == ".mpg" || e == ".m2v" || e == ".mxf";
    }
  }

  // ---------------------------------------------------------------------------
  // Path components

  /** `splitpath(path, maxdepth)`: the path's components, found by splitting
      off the last one until the head is empty, stops changing, or the depth
      budget runs out. */
  function SplitPath(path: Path, maxdepth: nat): (r: seq<Path>)
    ensures 1 <= |r| <= maxdepth + 1
    decreases maxdepth
  {
    var (head, tail) := Split(path);
    if maxdepth != 0 && head != [] && head != path then SplitPath(head, maxdepth - 1) + [tail]
    else [if head != [] then head else tail]
  }

  /** Splitting a path one component longer adds that component. */
  lemma {:induction false} SplitPathJoin(h: Path, t: Path, maxdepth: nat)
    requires t != [] && '/' !in t
    requires h != [] && (h[|h| - 1] != '/' || AllSlashes(h))
    requires maxdepth > 0
    ensures SplitPath(Join(h, t), maxdepth) == SplitPath(h, maxdepth - 1) + [t]
  {
    SplitJoin(h, t);
    JoinRelative(h, t);
    assert |Join(h, t)| > |h|;
  }

  /** `os.path.join(*comps)`: the components joined one after the other. */
  function JoinComponents(comps: seq<string>): Path
    requires |comps| >= 1
  {
    if |comps| == 1 then comps[0] else Join(JoinComponents(comps[..|comps| - 1]), comps[|comps| - 1])
  }

  predicate IsComponent(c: string) {
    c != [] && '/' !in c
  }

  /** A path written as components: the root "/" or a first component,
      then components. */
  predicate AreComponents(comps: seq<string>) {
    && |comps| >= 1
    && (comps[0] == "/" || IsComponent(comps[0]))
    && forall k :: 1 <= k < |comps| ==> IsComponent(comps[k])
  }

  /** Such a path is "/" itself or does not end with a separator. */
  lemma {:induction false} JoinComponentsShape(comps: seq<string>)
    requires AreComponents(comps)
    ensures JoinComponents(comps) == "/" || (JoinComponents(comps) != [] && JoinComponents(comps)[|JoinComponents(comps)| - 1] != '/')
  {
    if |comps| > 1 {
      var last := comps[|comps| - 1];
      assert IsComponent(last);
      JoinRelative(JoinComponents(comps[..|comps| - 1]), last);
    }
  }

  /** A path of at most `maxdepth + 1` components splits into exactly those
      components: `a/b/c` gives `[a, b, c]` and `/a/b` gives `["/", a, b]`. */
  lemma {:induction false} SplitPathComponents(comps: seq<string>, maxdepth: nat)
    requires AreComponents(comps) && |comps| <= maxdepth + 1
    ensures SplitPath(JoinComponents(comps), maxdepth) == comps
    decreases |comps|
  {
    if |comps| == 1 {
      SplitPathOne(comps[0], maxdepth);
      assert comps == [comps[0]];
    } else {
      var init := comps[..|comps| - 1];
      FrontAreComponents(comps);
      SplitPathComponents(init, maxdepth - 1);
      JoinStep(comps, maxdepth);
      Seqs.DropLast([], comps);
    }
  }

  /** A single component, or the root, is its own split. */
  lemma {:induction false} SplitPathOne(c: string, maxdepth: nat)
    requires c == "/" || IsComponent(c)
    ensures SplitPath(c, maxdepth) == [c]
  {
    if c == "/" {
      assert Split("/") == ("/", "") by {
        TailStartAt("/", 1);
        assert AllSlashes("/");
        assert "/"[..1] == "/" && "/"[1..] == "";
      }
    } else {
      TailStartAt(c, 0);
    }
  }

  lemma {:induction false} FrontAreComponents(comps: seq<string>)
    requires AreComponents(comps) && |comps| >= 2
    ensures AreComponents(comps[..|comps| - 1])
  {
    var init := comps[..|comps| - 1];
    forall k | 1 <= k < |init| ensures IsComponent(init[k]) {
      assert init[k] == comps[k];
    }
  }

  /** Splitting a path drops its last component into the result. */
  lemma {:induction false} JoinStep(comps: seq<string>, maxdepth: nat)
    requires AreComponents(comps) && |comps| >= 2 && maxdepth >= 1
    requires AreComponents(comps[..|comps| - 1])
    ensures SplitPath(JoinComponents(comps), maxdepth)
         == SplitPath(JoinComponents(comps[..|comps| - 1]), maxdepth - 1) + [comps[|comps| - 1]]
  {
    var h := JoinComponents(comps[..|comps| - 1]);
    JoinComponentsShape(comps[..|comps| - 1]);
    assert h == "/" ==> AllSlashes(h);
    assert IsComponent(comps[|comps| - 1]);
    SplitPathJoin(h, comps[|comps| - 1], maxdepth);
  }

  /** The depth budget the packager always uses. */
  const MaxDepth: nat := 20

  /** The nested layout is used when the video sits more than two levels below
      the videos folder. */
  predicate IsNested(finaldst: Path, videosSrc: Path) {
    |SplitPath(finaldst, MaxDepth)| - |SplitPath(videosSrc, MaxDepth)| > 2
  }

  // ---------------------------------------------------------------------------
  // One video

  /** The fields read from a video's YAML descriptor. */
  datatype Meta = Meta(title: string, subTitle: string, description: string, thumbnailUrl: string)

  /** Reading a descriptor: it cannot be opened or parsed, it lacks one of the
      four keys, or it yields the four values. */
  datatype Sidecar = Unreadable | MissingKey(key: string) | Parsed(meta: Meta)

  /** `download_image`: the saved image's file name, a falsy result, or an
      exception. */
  datatype Download = Saved(image: string) | NotSaved | Raised

  /** What `apply` can raise. */
  datatype ApplyError =
    | KeyError(key: string)
      /** Unpacking the `False` that `process_meta_data` returns. */
    | TypeError
    | DownloadFailed

  /** What the player page shows: title, subtitle, description and image. */
  datatype Info = Info(title: string, subTitle: string, description: string, imagePath: string)

  /** The arguments of `generate_html`: the directory, the page name and what
      the page template is given. */
  datatype VideoPage = VideoPage(dir: Path, htmlName: string, videoName: string, videoSource: string,
                                 videoType: string, info: Info, back: string)

  /** An element of `list_of_videos`: a video entry (division None) or a
      division marker (all text empty, division set). */
  datatype Entry = Entry(videoName: string, sourcePath: string, title: string, subTitle: string,
                         imagePath: string, division: Option<string>)

  /** What one `apply` works out before it touches the instance. */
  datatype Described = Described(page: VideoPage, entry: Entry, base: string)

  /** The foreign calls `apply` makes. */
  datatype Oracles = Oracles(
    readSidecar: Path -> Sidecar,
    isFile: Path -> bool,
    download: (string, Path, string) -> Download)

  function Fallback(videoName: string): Info {
    Info(videoName, "", "", "")
  }

  /** A title longer than 50 characters is cut to 45 and marked with "...". */
  function ListTitle(title: string): (r: string)
    ensures |r| <= 50
    ensures |title| <= 50 ==> r == title
    ensures |title| > 50 ==> r == title[..45] + "..." && |r| == 48
  {
    if |title| > 50 then title[..45] + "..." else title
  }

  /** The image path stored for a thumbnail, below `dir`. */
  function ImagePath(url: string, targetDir: Path, videoName: string, dir: Path, oracles: Oracles): Result<string, ApplyError> {
    if url == [] then Success("")
    else match oracles.download(url, targetDir, videoName)
      case Saved(image) => Success(if image != [] then Join(Join(dir, "images"), image) else "")
      case NotSaved => Success("")
      case Raised => Failure(DownloadFailed)
  }

  /** The nested layout reads `<itemsrc dir>/metadata/<stem>_metadata.yaml`; any
      failure, a failed download included, falls back to the file name. */
  function NestedInfo(itemsrc: Path, finaldst: Path, videoName: string, oracles: Oracles): (r: Info)
    ensures !oracles.readSidecar(DescriptorPath(itemsrc, videoName)).Parsed? ==> r == Fallback(videoName)
  {
    var finaldstBase := Split(finaldst).0;
    var basePath := Split(finaldstBase).1;
    match oracles.readSidecar(DescriptorPath(itemsrc, videoName))
    case Parsed(m) =>
      (match ImagePath(m.thumbnailUrl, finaldstBase, videoName, basePath, oracles)
       case Success(image) => Info(m.title, m.subTitle, m.description, image)
       case Failure(_) => Fallback(videoName))
    case _ => Fallback(videoName)
  }

  function DescriptorPath(itemsrc: Path, videoName: string): Path {
    Join(Join(Split(itemsrc).0, "metadata"), videoName + "_metadata.yaml")
  }

  /** The flat layout consults the metadata dictionary; a missing name, an
      unreadable descriptor, a missing key or a failed download is raised. */
  function FlatInfo(finaldst: Path, videoName: string, metadata: Option<map<string, Path>>, oracles: Oracles): (r: Result<Info, ApplyError>)
    ensures (metadata.None? || metadata.value == map[]) ==> r == Success(Fallback(videoName))
    ensures metadata.Some? && metadata.value != map[] && videoName !in metadata.value ==> r == Failure(KeyError(videoName))
    ensures metadata.Some? && videoName in metadata.value && !oracles.isFile(metadata.value[videoName]) ==> r == Success(Fallback(videoName))
  {
    if metadata.None? || metadata.value == map[] then Success(Fallback(videoName))
    else if videoName !in metadata.value then Failure(KeyError(videoName))
    else
      var dataFile := metadata.value[videoName];
      if !oracles.isFile(dataFile) then Success(Fallback(videoName))
      else if dataFile == [] then Failure(TypeError)
      else match oracles.readSidecar(dataFile)
        case Unreadable => Failure(TypeError)
        case MissingKey(key) => Failure(KeyError(key))
        case Parsed(m) =>
          match ImagePath(m.thumbnailUrl, Split(finaldst).0, videoName, ".", oracles)
          case Success(image) => Success(Info(m.title, m.subTitle, m.description, image))
          case Failure(e) => Failure(e)
  }

  /** The names `apply` derives from the destination file name. */
  datatype Names = Names(videoName: string, extension: string, htmlName: string,
                         videoSource: string, videoType: string)

  /** The page name is `<stem>_<ext>.html` (the extension keeps its dot), the
      player loads `../<stem><ext>` and the media type is `video/` followed by
      the extension without its dot. */
  function NamesOf(finaldst: Path): (r: Names)
    ensures r.htmlName != [] && r.htmlName[0] != '/'
  {
    var split := SplitExt(Basename(finaldst));
    PrefixKeepsNoSlash(split.0, split.1, Basename(finaldst));
    Names(split.0, split.1, split.0 + "_" + split.1 + ".html",
          Join("..", split.0) + split.1, "video/" + SliceFrom(split.1, 1))
  }

  /** For a video `dir/stem + ext` the names are built from `stem` and `ext`. */
  lemma {:induction false} NamesOfVideo(dir: Path, stem: string, ext: string)
    requires '/' !in stem && '/' !in ext
    requires |ext| >= 1 && ext[0] == '.' && '.' !in ext[1..]
    requires exists k :: 0 <= k < |stem| && stem[k] != '.'
    ensures var n := NamesOf(Join(dir, stem + ext));
            && n.htmlName == stem + "_" + ext + ".html"
            && n.videoName == stem
            && n.videoSource == "../" + stem + ext
            && n.videoType == "video/" + ext[1..]
  {
    var name := stem + ext;
    var p := Join(dir, name);
    assert Basename(p) == name by {
      BasenameOfJoin(dir, name);
    }
    assert SplitExt(name) == (stem, ext) by {
      SplitExtName(stem, ext);
    }
    NamesFromSplit(p, stem, ext);
  }

  lemma {:induction false} NamesFromSplit(p: Path, stem: string, ext: string)
    requires SplitExt(Basename(p)) == (stem, ext)
    requires stem == [] || stem[0] != '/'
    requires |ext| >= 1
    ensures NamesOf(p) == Names(stem, ext, stem + "_" + ext + ".html", "../" + stem + ext, "video/" + ext[1..])
  {
    JoinParent(stem);
    assert "../" + stem + ext == Join("..", stem) + ext;
  }

  lemma {:induction false} JoinParent(s: string)
    requires s == [] || s[0] != '/'
    ensures Join("..", s) == "../" + s
  {
    JoinRelative("..", s);
    assert ".."[1..] == ".";
  }

  /** A page name never starts with a separator, so joining it to a directory
      inserts exactly one. */
  lemma {:induction false} HtmlNameRelative(finaldst: Path)
    ensures Join("html_files", NamesOf(finaldst).htmlName) == "html_files/" + NamesOf(finaldst).htmlName
  {
    var h := NamesOf(finaldst).htmlName;
    JoinRelative("html_files", h);
    assert JoinPrefix("html_files") == "html_files/";
  }

  lemma {:induction false} PrefixKeepsNoSlash(v: string, e: string, name: string)
    requires v + e == name && '/' !in name
    ensures (v + "_" + e + ".html")[0] != '/'
  {
    if v != [] {
      assert (v + "_" + e + ".html")[0] == name[0];
    }
  }

  /** Everything `apply` computes for one video. */
  function Describe(itemsrc: Path, finaldst: Path, metadata: Option<map<string, Path>>, videosSrc: Path, oracles: Oracles): (r: Result<Described, ApplyError>)
    ensures r.Success? ==> r.value.base == Basename(Dirname(finaldst))
    ensures r.Success? ==> r.value.page.dir == Dirname(finaldst)
    ensures r.Success? ==> var n := NamesOf(finaldst);
      && r.value.page.videoName == n.videoName == r.value.entry.videoName
      && r.value.page.htmlName == n.htmlName
      && r.value.page.videoSource == n.videoSource
      && r.value.page.videoType == n.videoType
    ensures r.Success? ==> r.value.entry.division.None?
    ensures r.Success? ==> r.value.entry.title == ListTitle(r.value.page.info.title)
    ensures r.Success? ==> r.value.entry.subTitle == r.value.page.info.subTitle
    ensures r.Success? ==> r.value.entry.imagePath == r.value.page.info.imagePath
    ensures IsNested(finaldst, videosSrc) ==> r.Success?
    ensures r.Success? && IsNested(finaldst, videosSrc) ==>
      && r.value.page.back == "../../index.html"
      && r.value.entry.sourcePath == Join(Join(r.value.base, "html_files"), r.value.page.htmlName)
    ensures r.Success? && !IsNested(finaldst, videosSrc) ==>
      && r.value.page.back == "../index.html"
      && r.value.entry.sourcePath == "html_files/" + r.value.page.htmlName
  {
    var names := NamesOf(finaldst);
    var base := Basename(Dirname(finaldst));
    var nested := IsNested(finaldst, videosSrc);
    var info :=
      if nested then Success(NestedInfo(itemsrc, finaldst, names.videoName, oracles))
      else FlatInfo(finaldst, names.videoName, metadata, oracles);
    match info
    case Failure(e) => Failure(e)
    case Success(info) =>
      HtmlNameRelative(finaldst);
      var sourcePath := if nested then Join(Join(base, "html_files"), names.htmlName) else Join("html_files", names.htmlName);
      var page := VideoPage(Dirname(finaldst), names.htmlName, names.videoName, names.videoSource,
                            names.videoType, info, if nested then "../../index.html" else "../index.html");
      Success(Described(page, Entry(names.videoName, sourcePath, ListTitle(info.title), info.subTitle, info.imagePath, None), base))
  }

  /** The last component of `dir` joined with a file name is that name. */
  lemma {:induction false} BasenameOfJoin(dir: Path, name: string)
    requires name != [] && '/' !in name
    ensures Basename(Join(dir, name)) == name
  {
    JoinRelative(dir, name);
    var p := Join(dir, name);
    var n := |JoinPrefix(dir)|;
    assert p[n..] == name;
    forall k | n <= k < |p| ensures p[k] != '/' {
      assert p[k] == name[k - n];
    }
    TailStartAt(p, n);
  }

  // ---------------------------------------------------------------------------
  // The list of videos

  /** The division marker `("", "", "", "", "", base)` that opens the entries
      of one destination directory. */
  function Marker(base: string): Entry {
    Entry("", "", "", "", "", Some(base))
  }

  predicate IsMarker(e: Entry) {
    e.division.Some?
  }

  /** The video entries of a list, in order. */
  function Videos(list: seq<Entry>): (r: seq<Entry>)
    ensures |r| <= |list|
    ensures forall k :: 0 <= k < |r| ==> !IsMarker(r[k])
  {
    if list == [] then []
    else Videos(list[..|list| - 1]) + (if IsMarker(list[|list| - 1]) then [] else [list[|list| - 1]])
  }

  /** The directories whose markers appear in a list, in order. */
  function MarkerBases(list: seq<Entry>): (r: seq<string>)
    ensures |r| <= |list|
  {
    if list == [] then []
    else MarkerBases(list[..|list| - 1])
         + (if IsMarker(list[|list| - 1]) then [list[|list| - 1].division.value] else [])
  }

  predicate Distinct<T(==)>(s: seq<T>) {
    forall i, j :: 0 <= i < j < |s| ==> s[i] != s[j]
  }

  /** What the instance keeps between calls: `new_list` names each directory
      once; every marker in the list is the marker of a directory in
      `new_list`, appears once, and is directly followed by a video entry. */
  predicate WellFormed(list: seq<Entry>, seen: seq<string>) {
    && Distinct(seen)
    && Distinct(MarkerBases(list))
    && (forall b :: b in MarkerBases(list) ==> b in seen)
    && (forall i :: 0 <= i < |list| && IsMarker(list[i]) ==>
          list[i] == Marker(list[i].division.value) && i + 1 < |list| && !IsMarker(list[i + 1]))
  }

  /** The bookkeeping of one successful `apply`: a directory seen before gets
      only the entry; a new one is remembered and gets its marker first. */
  function Record(list: seq<Entry>, seen: seq<string>, base: string, entry: Entry): (seq<Entry>, seq<string>) {
    if base in seen then (list + [entry], seen)
    else (list + [Marker(base), entry], seen + [base])
  }

  lemma {:induction false} VideosAppend(list: seq<Entry>, e: Entry)
    ensures Videos(list + [e]) == Videos(list) + (if IsMarker(e) then [] else [e])
  {
    assert (list + [e])[..|list|] == list;
  }

  lemma {:induction false} MarkerBasesAppend(list: seq<Entry>, e: Entry)
    ensures MarkerBases(list + [e]) == MarkerBases(list) + (if IsMarker(e) then [e.division.value] else [])
  {
    assert (list + [e])[..|list|] == list;
  }

  /** Each recorded video adds exactly its entry to the videos of the list,
      and a marker only for a directory not seen before. */
  lemma {:induction false} RecordEntries(list: seq<Entry>, seen: seq<string>, base: string, entry: Entry)
    requires !IsMarker(entry)
    ensures Videos(Record(list, seen, base, entry).0) == Videos(list) + [entry]
    ensures MarkerBases(Record(list, seen, base, entry).0) == MarkerBases(list) + (if base in seen then [] else [base])
    ensures Record(list, seen, base, entry).1 == seen + (if base in seen then [] else [base])
  {
    VideosAppend(list, entry);
    MarkerBasesAppend(list, entry);
    if base !in seen {
      var l1 := list + [Marker(base)];
      VideosAppend(list, Marker(base));
      MarkerBasesAppend(list, Marker(base));
      VideosAppend(l1, entry);
      MarkerBasesAppend(l1, entry);
      assert l1 + [entry] == list + [Marker(base), entry];
    }
  }

  /** Recording a video keeps the list well formed. */
  lemma {:induction false} RecordWellFormed(list: seq<Entry>, seen: seq<string>, base: string, entry: Entry)
    requires WellFormed(list, seen) && !IsMarker(entry)
    ensures WellFormed(Record(list, seen, base, entry).0, Record(list, seen, base, entry).1)
  {
    RecordEntries(list, seen, base, entry);
    var (l, n) := Record(list, seen, base, entry);
    forall i | 0 <= i < |l| && IsMarker(l[i])
      ensures l[i] == Marker(l[i].division.value) && i + 1 < |l| && !IsMarker(l[i + 1])
    {
      if i < |list| {
        assert l[i] == list[i];
        if i + 1 < |list| {
          assert l[i + 1] == list[i + 1];
        }
      }
    }
    if base !in seen {
      assert MarkerBases(l) == MarkerBases(list) + [base];
      assert forall b :: b in MarkerBases(list) ==> b != base;
    }
  }

  /** Two videos of one directory in a row add at most one marker. */
  lemma {:induction false} SameDirectoryOneMarker(list: seq<Entry>, seen: seq<string>, base: string, e1: Entry, e2: Entry)
    requires !IsMarker(e1) && !IsMarker(e2)
    ensures var first := Record(list, seen, base, e1);
            var second := Record(first.0, first.1, base, e2);
            && MarkerBases(second.0) == MarkerBases(list) + (if base in seen then [] else [base])
            && Videos(second.0) == Videos(list) + [e1, e2]
  {
    var first := Record(list, seen, base, e1);
    var second := Record(first.0, first.1, base, e2);
    assert MarkerBases(first.0) == MarkerBases(list) + (if base in seen then [] else [base])
        && Videos(first.0) == Videos(list) + [e1]
        && base in first.1 by {
      RecordEntries(list, seen, base, e1);
    }
    assert MarkerBases(second.0) == MarkerBases(first.0) && Videos(second.0) == Videos(first.0) + [e2] by {
      RecordEntries(first.0, first.1, base, e2);
    }
    assert Videos(list) + [e1] + [e2] == Videos(list) + [e1, e2];
  }

  /** What the list page template is given, and which templates are rendered
      into `index.html`, in order. */
  datatype IndexPage = IndexPage(path: Path, summary: string, subtitle: string, trackingCode: string,
                                 list: seq<Entry>, divisionBack: string, renders: seq<string>)

  const DefaultListTemplate: string := "templates/videos_list.html"

  /** The renderings written as the code stands: with a custom template the
      write after the if-statement repeats it, so the page appears twice. */
  function IndexRendersAsWritten(templatePth: string): seq<string> {
    if templatePth != [] then [templatePth, templatePth] else [DefaultListTemplate]
  }

  /** The renderings evidently intended: the chosen template, once. */
  function IndexRenders(templatePth: string): (r: seq<string>)
    ensures |r| == 1
    ensures r[0] == (if templatePth != [] then templatePth else DefaultListTemplate)
  {
    if templatePth != [] then [templatePth] else [DefaultListTemplate]
  }

  /** With a custom template, the page as written holds its rendering twice. */
  lemma {:induction false} CustomTemplateWrittenTwice(templatePth: string)
    requires templatePth != []
    ensures IndexRendersAsWritten(templatePth) == IndexRenders(templatePth) + IndexRenders(templatePth)
    ensures IndexRendersAsWritten("") == IndexRenders("")
  {
  }

  /** The state of one `VideoTransformation`. */
  class VideoTransformation {
    const trackingCode: string
    var listOfVideos: seq<Entry>
    var newList: seq<string>

    ghost predicate Valid()
      reads this
    {
      WellFormed(listOfVideos, newList)
    }

    constructor(trackingCode: string)
      ensures Valid()
      ensures this.trackingCode == trackingCode && listOfVideos == [] && newList == []
    {
      this.trackingCode := trackingCode;
      listOfVideos := [];
      newList := [];
    }

    /** `apply`: describe the video; if that raises, nothing changes;
        otherwise record it and return the player page to write. */
    method Apply(itemsrc: Path, finaldst: Path, metadata: Option<map<string, Path>>, videosSrc: Path, oracles: Oracles)
      returns (r: Result<VideoPage, ApplyError>)
      requires Valid()
      modifies this
      ensures Valid()
      ensures var d := Describe(itemsrc, finaldst, metadata, videosSrc, oracles);
        && (d.Failure? ==> r == Failure(d.error) && listOfVideos == old(listOfVideos) && newList == old(newList))
        && (d.Success? ==>
              && r == Success(d.value.page)
              && (listOfVideos, newList) == Record(old(listOfVideos), old(newList), d.value.base, d.value.entry))
    {
      var d := Describe(itemsrc, finaldst, metadata, videosSrc, oracles);
      if d.Failure? {
        return Failure(d.error);
      }
      Remember(d.value.base, d.value.entry);
      r := Success(d.value.page);
    }

    /** The bookkeeping at the end of `apply`: a directory not seen before
        is remembered and its marker goes in front of the entry. */
    method Remember(base: string, entry: Entry)
      requires Valid() && !IsMarker(entry)
      modifies this
      ensures Valid()
      ensures (listOfVideos, newList) == Record(old(listOfVideos), old(newList), base, entry)
    {
      RecordWellFormed(listOfVideos, newList, base, entry);
      if base in newList {
        listOfVideos := listOfVideos + [entry];
      } else {
        newList := newList + [base];
        listOfVideos := listOfVideos + [Marker(base), entry];
      }
    }

    /** `generate_video_list_html`: nothing when the list is empty; otherwise
        the index page of the list, after which the list is emptied. The
        directories seen stay remembered. */
    method GenerateVideoListHtml(dstDir: Path, subtitle: string, summary: string, pathTo: string, templatePth: string)
      returns (r: Option<IndexPage>)
      requires Valid()
      modifies this
      ensures Valid()
      ensures newList == old(newList)
      ensures old(listOfVideos) == [] ==> r.None? && listOfVideos == []
      ensures old(listOfVideos) != [] ==>
        && r == Some(IndexPage(Join(dstDir, "index.html"), summary, subtitle, trackingCode,
                               old(listOfVideos), pathTo, IndexRenders(templatePth)))
        && listOfVideos == []
    {
      if listOfVideos == [] {
        return None;
      }
      r := Some(IndexPage(Join(dstDir, "index.html"), summary, subtitle, trackingCode,
                          listOfVideos, pathTo, IndexRenders(templatePth)));
      listOfVideos := [];
    }
  }
}
