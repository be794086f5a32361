# offline-content-packager, modelled in Dafny

The offline content packager turns a tree of web content and videos into a
bundle that can be browsed without a network. This project models the scripts
under `third_party/nkata/scripts` that do the packaging work and proves
properties of that model:

- **Copying a tree** (`utils/fileutil.py`). Every file that is not a YAML
  descriptor or a dot-file is copied into a mirrored tree. The HTML and video
  transformations that claim a file run one after another, chained through
  scratch files. The progress bar is told the running count out of the count
  `count_files` found.
- **The HTML rewrite** (`transformations/transformhtml.py`). Absolute http(s)
  anchors get `target='_blank'` and the link colour. The information header goes
  after `<body>`, and a Google Analytics tracking image goes before `</body>`.
- **The video transformation** (`transformations/transformvideo.py`):
  - the extension test, and the names and layout of each video's player page;
  - the list of videos with one division marker per destination directory,
    rendered into an index page and then emptied;
  - `splitpath`.
- **Choosing what to bundle** (`utils/content.py`): the sections of a source
  directory, a division's content and video items, and the online link.
- **Packing** (`convert.py`, `utils/zipper.py`). A bundle is split into parts
  below a size limit, and each part gets a numbered archive name. `to_zip`
  computes the archive path, the name of each entry and the default file list.
- **Checking the configuration** (`verifyconfig.py`): dotted keys of the main
  configuration, and the section descriptors and video folder that must exist.

Imperative code is modelled as imperative Dafny: the loops of `copy_files`,
`count_files`, `copy_with_transformations`, `split`, the part-numbering loops,
`verify_and_extract_main_config`, `verify_section_config` and the loops of
`to_zip`. Each method is proved equal to a specification function of its inputs,
and the properties are proved about those functions.
`VideoTransform.VideoTransformation` is a class whose methods update its two
lists in place. Pure code (the HTML rewrite, `content.py`) is modelled as
functions and lemmas.

The models of Python's library functions that the scripts rely on are
modules of their own:

- `PosixPath`: `os.path.join`, `split`, `basename`, `dirname`, `splitext`;
- `Strings`: `str` methods;
- `FileSystem`: a store of files and directories, and the triples `os.walk`
  yields.

A directory listing, a walk, file sizes, YAML parsing, the scratch file names
and the image download are foreign calls. Each is handed to the model as a
value or a function.

## Model

| member | source | states |
|---|---|---|
| FileUtil.Applicable | third_party/nkata/scripts/utils/fileutil.py:47 | the selection holds only members of the list that claim the file, and every transformation in the list that claims the file is selected |
| FileUtil.ApplicableAppend | third_party/nkata/scripts/utils/fileutil.py:47 | selection keeps list order: selecting from a concatenation is the concatenation of the selections |
| FileUtil.HtmlAndVideoDisjoint | third_party/nkata/scripts/utils/fileutil.py:47 | no path is claimed by both the HTML and the video transformation |
| FileUtil.HtmlNotAVideoExtension | third_party/nkata/scripts/transformations/transformvideo.py:49-52 | ".html" is not one of the video extensions |
| FileUtil.ShippedListRunsAtMostOne | third_party/nkata/scripts/utils/fileutil.py:47-60 | with the transformation list the packager builds (HTML, then video), at most one transformation runs on any file |
| FileUtil.ChainShape | third_party/nkata/scripts/utils/fileutil.py:49-60 | the corrected chain (first and fifth findings below) calls exactly the applicable transformations in order: the first reads the source, each writes a fresh scratch file that the next reads, the last writes the destination, and every call gets the final destination, metadata and video folder |
| FileUtil.CopyWithTransformations | third_party/nkata/scripts/utils/fileutil.py:29-63 | the actions are the plain copy when nothing applies and otherwise the calls of the corrected chain |
| FileUtil.RunChain | third_party/nkata/scripts/utils/fileutil.py:52-60 | the loop over all but the last applicable transformation, followed by the last call, makes exactly the calls of the corrected chain |
| FileUtil.ChainComposes | third_party/nkata/scripts/utils/fileutil.py:49-60 | running the corrected chain (five arguments per call, each scratch file kept until the next call has read it) always succeeds and leaves at the destination the transformations composed, in order, over the source content |
| FileUtil.ChainRebinding | third_party/nkata/scripts/utils/fileutil.py:53-56 | the actions as the loop runs them: binding `temp` to a new temporary file deletes the one bound before, just before the next call; proved about it: RebindingHarmlessUpToTwo, RebindingLosesScratch |
| FileUtil.RebindingHarmlessUpToTwo | third_party/nkata/scripts/utils/fileutil.py:53-56 | with one or two applicable transformations the rebinding deletes nothing before it is read, so the actions are those of the corrected chain and ChainComposes applies |
| FileUtil.RebindingLosesScratch | third_party/nkata/scripts/utils/fileutil.py:53-56 | as written, with three or more applicable transformations the second call reads a scratch file that is already deleted, so the copy fails whatever the transformations do |
| FileUtil.Chain | third_party/nkata/scripts/utils/fileutil.py:49-60 | the calls of the corrected chain: the first reads the source, each intermediate one writes the next scratch file, the last writes the destination; proved about it: ChainShape, ChainComposes |
| FileUtil.CopyActions | third_party/nkata/scripts/utils/fileutil.py:29-63 | what `copy_with_transformations` does for one file: a plain copy when no transformation claims the file, otherwise the corrected chain over the claiming ones; proved about it: CopyWithTransformations, UnclaimedFileCopiedVerbatim, TextFileWithHtmlRewrite |
| FileUtil.CallsAsWritten | third_party/nkata/scripts/utils/fileutil.py:52-60 | the argument lists as the loop passes them, four for each intermediate call and five for the last; proved about it: FirstBadCall, IntermediateCallMissesArgument |
| FileUtil.Perform | third_party/nkata/scripts/utils/fileutil.py:53-63 | the effect of the actions on the file contents: a copy or a call fails when its source is missing, a discard removes a file; proved about it: ChainComposes, RebindingLosesScratch |
| FileUtil.Pipe | third_party/nkata/scripts/utils/fileutil.py:49-60 | the content the chain should produce: the transformations applied one after the other to the source content; ChainComposes proves the corrected chain writes it |
| FileUtil.UnclaimedFileCopiedVerbatim | third_party/nkata/scripts/utils/fileutil.py:62-63 | a file no transformation claims arrives at the destination with its content unchanged, and nothing else changes |
| FileUtil.TextFileWithHtmlRewrite | third_party/nkata/scripts/utils/fileutil.py:62-63 | with only the HTML rewrite configured, a file not ending in ".html" is copied verbatim |
| FileUtil.FirstBadCall | third_party/nkata/scripts/utils/fileutil.py:55 | locates the first call whose argument count differs from the method's five parameters (where Python raises TypeError); all calls before it are well formed, and None means all are |
| FileUtil.IntermediateCallMissesArgument | third_party/nkata/scripts/utils/fileutil.py:52-60 | as written, two or more applicable transformations make the very first call fail; a single one behaves exactly like the corrected chain, whose calls all bind five arguments |
| FileUtil.CountFiles | third_party/nkata/scripts/utils/fileutil.py:106-125 | for a walk `os.walk` of the path can yield over the store, the count is the number of files the copy walk keeps (not directly in a walked directory whose path ends with "metadata", whose subdirectories still count; not a descriptor; not a dot-file), or 0 when the path is not a directory |
| FileUtil.CopyFiles | third_party/nkata/scripts/utils/fileutil.py:64-103 | for a walk `os.walk` of the source can yield over the store, the resulting store and operations are those of the copy plan, whose progress total is the count `count_files` gives, and each missing mirror is made with its missing parents; the plan assumes every call returns (see InterruptedCopyFiles) |
| FileUtil.CopyWalk | third_party/nkata/scripts/utils/fileutil.py:86-103 | the walk loop yields the store and operations of the directory-by-directory walk specification, in which `makedirs` adds a missing mirror together with its missing parent directories |
| FileUtil.CopyDir | third_party/nkata/scripts/utils/fileutil.py:88-103 | one walked directory: when nothing exists at its mirror, the mirror and its missing parents become directories; its files are copied, and the running count grows by the files kept |
| FileUtil.CopyNames | third_party/nkata/scripts/utils/fileutil.py:95-103 | the name loop copies each kept name to the mirror and reports the running count after each; the count grows by the number of kept names |
| FileUtil.SpreadTargets | third_party/nkata/scripts/utils/fileutil.py:95-101 | whatever the skip test, the copies made for a name list are those of the names it keeps, in listing order |
| FileUtil.SpreadNumbers | third_party/nkata/scripts/utils/fileutil.py:102-103 | whatever the skip test, the reports for a name list count on by one per kept name |
| FileUtil.FileOpsCopies | third_party/nkata/scripts/utils/fileutil.py:95-101 | the files of one directory are copied, in listing order, into its mirror, descriptors and dot-files excepted |
| FileUtil.FileOpsReports | third_party/nkata/scripts/utils/fileutil.py:102-103 | the reports of one directory count on from the files copied before it, one per copied file, each out of the total |
| FileUtil.DirOpsCopies | third_party/nkata/scripts/utils/fileutil.py:88-101 | one walked directory copies exactly its kept files; a "metadata" directory copies nothing |
| FileUtil.DirOpsReports | third_party/nkata/scripts/utils/fileutil.py:88-103 | one walked directory reports once per kept file, counting on from the files before it |
| FileUtil.WalkTargets | third_party/nkata/scripts/utils/fileutil.py:86-101 | whatever each directory does to the store, a walk copies the files kept in each directory, in walk order |
| FileUtil.WalkNumbers | third_party/nkata/scripts/utils/fileutil.py:86-103 | whatever each directory does to the store, a walk's reports are 1, 2, ... up to the number of kept files |
| FileUtil.WalkCopies | third_party/nkata/scripts/utils/fileutil.py:86-101 | across the whole walk every kept file is copied exactly once, in walk order, to the same relative place in the destination |
| FileUtil.WalkReports | third_party/nkata/scripts/utils/fileutil.py:102-103 | across the whole walk the progress bar is told 1, 2, ..., n out of the total, n being the number of kept files |
| FileUtil.WalkMirrors | third_party/nkata/scripts/utils/fileutil.py:86-94 | creating the mirrored directories touches no regular file and only adds directories, each new one with all its ancestors; afterwards the mirror of every walked directory not skipped exists (the file copies are recorded as operations, see WalkCopies) |
| FileUtil.CopyFilesCompletes | third_party/nkata/scripts/utils/fileutil.py:66-125 | for a source directory, `copy_files` copies exactly the files `count_files` counts, and its last report is the full count out of itself |
| FileUtil.InterruptedCopyFiles | third_party/nkata/scripts/utils/fileutil.py:64-103 | when a call raises and ends the walk after any number of operations, the files copied so far are the first of those `count_files` counts, in walk order, and the progress bar was told 1, 2, ... out of the full count, never more than that count |
| FileUtil.ProgressWithinTotal | third_party/nkata/scripts/utils/fileutil.py:74-103 | whatever the source path is (a directory, a single file, a descriptor or nothing), every progress report counts at least one file and at most the total `count_files` gave |
| FileUtil.CopyPlan | third_party/nkata/scripts/utils/fileutil.py:66-103 | `copy_files` as a specification: a single file that is not a descriptor is copied straight to the destination, anything else is walked; proved about it: CopyFilesCompletes, ProgressWithinTotal, InterruptedCopyFiles |
| FileUtil.MirrorOf | third_party/nkata/scripts/utils/fileutil.py:90-91 | the mirror of a walked directory: the destination joined with the walked path minus the source directory and one separator; proved about it: WalkCopies, WalkMirrors |
| FileSystem.MakeDirs | third_party/nkata/scripts/utils/fileutil.py:93-94 | `os.makedirs` of a path that does not exist: the path and every missing ancestor become directories and the regular files stay as they are |
| FileSystem.MakeDirsParent | third_party/nkata/scripts/utils/fileutil.py:93-94 | after `makedirs`, every ancestor of the path is a directory |
| FileSystem.MadeDirsClosed | third_party/nkata/scripts/utils/fileutil.py:93-94 | the directories `makedirs` adds have their ancestors among them |
| HtmlTransform.AppliesExactSuffix | third_party/nkata/scripts/transformations/transformhtml.py:95-104 | names ending in ".html" are claimed; ".HTML", ".htm" and a trailing space are not (the test is exact and case-sensitive) |
| HtmlTransform.Applies | third_party/nkata/scripts/transformations/transformhtml.py:95-104 | a path is claimed exactly when it ends in ".html"; proved about it: AppliesExactSuffix, FileUtil.HtmlAndVideoDisjoint |
| HtmlTransform.LinkColor | third_party/nkata/scripts/transformations/transformhtml.py:130 | the link colour is the configured one when it is set, otherwise "green"; it is never empty |
| HtmlTransform.SkipSpaces | third_party/nkata/scripts/transformations/transformhtml.py:50-51 | the `\s*` of the attribute patterns, with `\s` as Python 3 matches it in a `str` (ASCII and Unicode whitespace): the index reached is the first non-space at or after the start |
| HtmlTransform.QuoteFrom | third_party/nkata/scripts/transformations/transformhtml.py:50-51 | finds the first quote character at or after an index, or reports that there is none |
| HtmlTransform.AttrMatch | third_party/nkata/scripts/transformations/transformhtml.py:50-51 | a match of `name\s*=['"].+?['"]` at an index: the name (ignoring case), `=`, an opening quote, at least one character, and the first quote after that |
| HtmlTransform.MatchesInside | third_party/nkata/scripts/transformations/transformhtml.py:147-154 | every match of the two attribute patterns lies inside the attribute text and ends after it starts |
| HtmlTransform.SubSkip | third_party/nkata/scripts/transformations/transformhtml.py:147-154 | `re.subn` copies through, unchanged, every position where no match starts |
| HtmlTransform.SubRest | third_party/nkata/scripts/transformations/transformhtml.py:147-154 | with no match left, the rest of the text is copied and nothing is counted |
| HtmlTransform.SubAround | third_party/nkata/scripts/transformations/transformhtml.py:147-154 | a single match is replaced by its replacement, with the text before and after it kept |
| HtmlTransform.SubCounts | third_party/nkata/scripts/transformations/transformhtml.py:147-156 | the count `re.subn` returns is positive exactly when some position matches |
| HtmlTransform.SubNone | third_party/nkata/scripts/transformations/transformhtml.py:147-156 | with no match anywhere, the substitution returns the text unchanged with count 0 |
| HtmlTransform.SubOne | third_party/nkata/scripts/transformations/transformhtml.py:147-154 | with a single match, the result is the text with that match replaced, and the count is 1 |
| HtmlTransform.SubCount | third_party/nkata/scripts/transformations/transformhtml.py:147-156 | whole-text version: the count is positive exactly when the pattern matches somewhere |
| HtmlTransform.Sub | third_party/nkata/scripts/transformations/transformhtml.py:147-156 | `re.subn` over the whole text: each leftmost non-overlapping match replaced, with the number of matches; proved about it: SubSkip, SubRest, SubAround, SubCounts, SubNone, SubOne, SubCount |
| HtmlTransform.NewAttrs | third_party/nkata/scripts/transformations/transformhtml.py:141-156 | the new attribute text: targets set to `_blank`, styles extended with the colour, then whichever of the two attributes was missing; proved about it: NewAttrsAppend, NewAttrsInPlace |
| HtmlTransform.TransformLink | third_party/nkata/scripts/transformations/transformhtml.py:132-158 | `transform_link`: every occurrence of the attribute text in the link replaced by the new attribute text; proved about it: TransformLinkExchanges |
| HtmlTransform.NewAttrsAppend | third_party/nkata/scripts/transformations/transformhtml.py:141-158 | an anchor with neither a target nor a style gets ` target='_blank' ` and then ` style='color: <c>' ` appended |
| HtmlTransform.NewAttrsInPlace | third_party/nkata/scripts/transformations/transformhtml.py:141-158 | an anchor with one target and one style has the target set to `_blank` and the colour appended inside the style, and nothing is appended |
| HtmlTransform.TransformLinkExchanges | third_party/nkata/scripts/transformations/transformhtml.py:158 | when the attribute text occurs nowhere else in the link, `link.replace` exchanges just the attribute text for the new one |
| HtmlTransform.HexDigit | third_party/nkata/scripts/transformations/transformhtml.py:73-74 | a hex digit of a percent escape is an unreserved character |
| HtmlTransform.Utf8 | third_party/nkata/scripts/transformations/transformhtml.py:73-74 | one character encodes to one to four bytes, each below 256, and an ASCII character to itself |
| HtmlTransform.PercentBytes | third_party/nkata/scripts/transformations/transformhtml.py:73-74 | each byte becomes a three-character escape made only of characters quoting can produce |
| HtmlTransform.QuoteChar | third_party/nkata/scripts/transformations/transformhtml.py:73-74 | quoting one character yields only unreserved characters, `+` and `%` |
| HtmlTransform.QuotePlus | third_party/nkata/scripts/transformations/transformhtml.py:73-74 | `quote_plus` output uses only unreserved characters, `+` and `%`, and is never shorter than its input |
| HtmlTransform.QuotePlusUnreserved | third_party/nkata/scripts/transformations/transformhtml.py:73-74 | a string of unreserved characters is quoted as itself |
| HtmlTransform.HexRoundTrip | third_party/nkata/scripts/transformations/transformhtml.py:73-74 | reading back a hex digit gives its value |
| HtmlTransform.UnquoteQuoteChar | third_party/nkata/scripts/transformations/transformhtml.py:73-74 | unquoting undoes the quoting of one ASCII character, whatever follows it |
| HtmlTransform.QuotePlusRoundTrip | third_party/nkata/scripts/transformations/transformhtml.py:73-74 | unquoting the quoting of an ASCII string gives the string back |
| HtmlTransform.EncodePairs | third_party/nkata/scripts/transformations/transformhtml.py:73-74 | one encoded `key=value` field per query parameter, in order |
| HtmlTransform.TrackingTag | third_party/nkata/scripts/transformations/transformhtml.py:53-77 | there is no tag exactly when the tracking code is empty; otherwise the tag is an image whose source is the Analytics collect URL |
| HtmlTransform.EncodedFieldSafe | third_party/nkata/scripts/transformations/transformhtml.py:73-76 | an encoded field holds neither `&`, `"` nor a backslash |
| HtmlTransform.QuotedSafe | third_party/nkata/scripts/transformations/transformhtml.py:73-76 | quoted text holds neither `&`, `"` nor a backslash |
| HtmlTransform.QueryLiteral | third_party/nkata/scripts/transformations/transformhtml.py:73-76 | an encoded query holds no backslash |
| HtmlTransform.TrackingTextLiteral | third_party/nkata/scripts/transformations/transformhtml.py:167-168 | the tracking text spliced into the replacement template holds no backslash, so it is inserted as it is |
| HtmlTransform.TrackingInsertLiteral | third_party/nkata/scripts/transformations/transformhtml.py:167-168 | the corrected tracking text holds no backslash either, so `Transform` may insert it as it is |
| HtmlTransform.TrackingText | third_party/nkata/scripts/transformations/transformhtml.py:53-77 | `str()` of the tracking tag, as the code inserts it before the closing body tag: the text "None" without a tracking code, otherwise the tracking image tag; proved about it: NoCodeShowsNone, TrackingTextLiteral, TrackingTextIsImage |
| HtmlTransform.NoCodeShowsNone | third_party/nkata/scripts/transformations/transformhtml.py:58-59 | as written, without a tracking code the text put before each closing body tag is "None", which differs from the corrected text |
| HtmlTransform.TrackingInsert | third_party/nkata/scripts/transformations/transformhtml.py:163-168 | the corrected text before the closing body tag: empty exactly when there is no tracking code, otherwise the same tracking image tag as the code inserts |
| HtmlTransform.UrlEncodeSplits | third_party/nkata/scripts/transformations/transformhtml.py:73-76 | an encoded query splits at `&` back into its encoded fields, none of which holds `"`, so the `src` attribute is not cut short |
| HtmlTransform.TrackingQueryFields | third_party/nkata/scripts/transformations/transformhtml.py:65-76 | the tracking query splits back into its ten fields in insertion order; the eighth carries the tracking code and the ninth the page |
| HtmlTransform.ParameterFields | third_party/nkata/scripts/transformations/transformhtml.py:69-71 | the fields for the tracking code, the page and the client id follow the fixed fields |
| HtmlTransform.TransformAppend | third_party/nkata/scripts/transformations/transformhtml.py:122-170 | the rewrite works piece by piece: a page cut in two is transformed as its two halves |
| HtmlTransform.Transform | third_party/nkata/scripts/transformations/transformhtml.py:122-170 | `transform` on a page cut into tokens: external anchors rewritten with the link colour, the header after each opening body tag, the corrected tracking text (`TrackingInsert`) before each closing one, all else kept; proved about it: TransformAppend, TransformUnchanged, MixedLinks, BodyInsertions |
| HtmlTransform.TransformUnchanged | third_party/nkata/scripts/transformations/transformhtml.py:122-170 | a page whose text holds no body tag (`Found`) and that has no absolute http(s) anchors comes out unchanged; in particular the empty page stays empty |
| HtmlTransform.MixedLinks | third_party/nkata/scripts/transformations/transformhtml.py:48-49 | only absolute anchors are rewritten: a relative link next to an absolute one is left as it is |
| HtmlTransform.BodyInsertions | third_party/nkata/scripts/transformations/transformhtml.py:163-168 | for a page whose text outside its two body tags holds no body tag, and a configuration whose header holds no closing body tag, does not start with a digit, and whose header and colour hold no backslash, the header directly follows the opening body tag and the corrected tracking text directly precedes the closing body tag, with the rest kept |
| HtmlTransform.TrackingTextIsImage | third_party/nkata/scripts/transformations/transformhtml.py:167-168 | with a tracking code, the text put before `</body>` is an image tag |
| VideoTransform.FusedEntryNeverMatches | third_party/nkata/scripts/transformations/transformvideo.py:49-65 | the fused list entry ".flv.vob.ogv" can never be the extension `splitext` returns |
| VideoTransform.AppliesByExtension | third_party/nkata/scripts/transformations/transformvideo.py:54-65 | for a file `stem + ext` with an ordinary stem and a one-dot extension, the file is claimed exactly when the extension is in the list |
| VideoTransform.FusedExtensionsNotClaimed | third_party/nkata/scripts/transformations/transformvideo.py:49-65 | `.flv`, `.vob` and `.ogv` files are not claimed |
| VideoTransform.FusedNotListedApart | third_party/nkata/scripts/transformations/transformvideo.py:49-52 | ".flv", ".vob" and ".ogv" are not entries of the list |
| VideoTransform.Applies | third_party/nkata/scripts/transformations/transformvideo.py:54-65 | a path is claimed exactly when the extension `splitext` gives is an entry of the list, case-sensitively; proved about it: AppliesByExtension, FusedExtensionsNotClaimed |
| VideoTransform.SplitPath | third_party/nkata/scripts/transformations/transformvideo.py:247-263 | `splitpath` returns at least one and at most depth + 1 components |
| VideoTransform.SplitPathJoin | third_party/nkata/scripts/transformations/transformvideo.py:247-263 | splitting a path one component longer adds that component at the end |
| VideoTransform.JoinComponentsShape | third_party/nkata/scripts/transformations/transformvideo.py:247-263 | a path built from components is the root or does not end with a separator |
| VideoTransform.SplitPathComponents | third_party/nkata/scripts/transformations/transformvideo.py:247-263 | a path of at most depth + 1 components splits into exactly those components (`a/b/c` into [a, b, c], `/a/b` into ["/", a, b]) |
| VideoTransform.SplitPathOne | third_party/nkata/scripts/transformations/transformvideo.py:247-263 | a single component, or the root, is its own split |
| VideoTransform.JoinStep | third_party/nkata/scripts/transformations/transformvideo.py:260-263 | splitting drops the last component of a path into the result |
| VideoTransform.ListTitle | third_party/nkata/scripts/transformations/transformvideo.py:127-128 | a list title is at most 50 characters: a shorter title is kept, a longer one is cut to 45 characters followed by "..." |
| VideoTransform.NestedInfo | third_party/nkata/scripts/transformations/transformvideo.py:85-105 | nested layout: a descriptor that cannot be read or parsed falls back to the file name with empty subtitle, description and image |
| VideoTransform.FlatInfo | third_party/nkata/scripts/transformations/transformvideo.py:107-122 | flat layout: without metadata the page falls back to the file name; a video missing from non-empty metadata raises KeyError; a descriptor that is not a file falls back |
| VideoTransform.NamesOf | third_party/nkata/scripts/transformations/transformvideo.py:77-80 | the page name never starts with a separator and is not empty |
| VideoTransform.NamesOfVideo | third_party/nkata/scripts/transformations/transformvideo.py:77-80 | for `dir/stem + ext`, the page is `stem_ext.html`, the player loads `../stem` + ext, and the media type is `video/` followed by the extension without its dot |
| VideoTransform.NamesFromSplit | third_party/nkata/scripts/transformations/transformvideo.py:77-80 | the names follow from the stem and extension `splitext` gives |
| VideoTransform.HtmlNameRelative | third_party/nkata/scripts/transformations/transformvideo.py:108 | joining the page name to "html_files" inserts exactly one separator |
| VideoTransform.Describe | third_party/nkata/scripts/transformations/transformvideo.py:67-141 | everything one `apply` computes: the page directory, names and media type from the destination; the list entry with the shortened title and the page's subtitle and image; the back link and page location by layout; the nested layout never raises |
| VideoTransform.BasenameOfJoin | third_party/nkata/scripts/transformations/transformvideo.py:77 | the last component of `dir` joined with a file name is that name |
| VideoTransform.Videos | third_party/nkata/scripts/transformations/transformvideo.py:130-138 | the video entries of a list, none of them a division marker |
| VideoTransform.RecordEntries | third_party/nkata/scripts/transformations/transformvideo.py:130-138 | each recorded video adds exactly its entry to the list's videos; a marker and a remembered directory are added only for a directory not seen before |
| VideoTransform.RecordWellFormed | third_party/nkata/scripts/transformations/transformvideo.py:130-138 | recording keeps the list well formed: directories are remembered once, and each marker belongs to a remembered directory, appears once and is directly followed by a video |
| VideoTransform.SameDirectoryOneMarker | third_party/nkata/scripts/transformations/transformvideo.py:130-138 | two videos of one directory recorded in a row add at most one marker |
| VideoTransform.Record | third_party/nkata/scripts/transformations/transformvideo.py:130-138 | the bookkeeping of one `apply`: a directory seen before gets only the entry, a new one is remembered and gets its marker first; proved about it: RecordEntries, RecordWellFormed, SameDirectoryOneMarker |
| VideoTransform.IndexRenders | third_party/nkata/scripts/transformations/transformvideo.py:239-244 | the index page is rendered once, from the custom template when one is given and otherwise from the default list template |
| VideoTransform.CustomTemplateWrittenTwice | third_party/nkata/scripts/transformations/transformvideo.py:239-244 | as written, a custom template's rendering is written twice into `index.html`; without one the page is written once |
| VideoTransform.IndexRendersAsWritten | third_party/nkata/scripts/transformations/transformvideo.py:239-244 | the renderings written into `index.html` as the code stands: the custom template twice, or the default list template once; CustomTemplateWrittenTwice compares it with IndexRenders |
| VideoTransform.VideoTransformation.constructor | third_party/nkata/scripts/transformations/transformvideo.py:37-48 | a new instance keeps the tracking code and starts with both lists empty |
| VideoTransform.VideoTransformation.Apply | third_party/nkata/scripts/transformations/transformvideo.py:67-145 | a failure leaves both lists unchanged; a success returns the player page and records the entry (and a marker for a new directory), keeping the lists well formed |
| VideoTransform.VideoTransformation.Remember | third_party/nkata/scripts/transformations/transformvideo.py:130-138 | the bookkeeping of `apply` is the recording of the entry, and the lists stay well formed |
| VideoTransform.VideoTransformation.GenerateVideoListHtml | third_party/nkata/scripts/transformations/transformvideo.py:212-245 | an empty list writes nothing; otherwise the index page, in the destination directory, gets the whole list and the page parameters, after which the list is emptied while the remembered directories stay |
| Content.GetSectionsFilters | third_party/nkata/scripts/utils/content.py:113-143 | a name is returned exactly when it is listed and is neither a dot-name nor an ignored path; listing order is kept |
| Content.GetSections | third_party/nkata/scripts/utils/content.py:113-143 | `get_sections` on a directory listing: the listed names that are neither dot-names nor ignored paths, in listing order; proved about it: GetSectionsFilters, NothingIgnoredDropsDotNames |
| Content.NothingIgnoredDropsDotNames | third_party/nkata/scripts/utils/content.py:124-143 | with nothing ignored, exactly the dot-names are dropped |
| Content.ContainsPrefix | third_party/nkata/scripts/utils/content.py:136-139 | an occurrence at the start is an occurrence for the substring test |
| Content.MetadataTextDropsPrefixNames | third_party/nkata/scripts/bundle.py:325-326 | as called with the metadata path as one string, every section whose name is a prefix of "metadata" is dropped |
| Content.MetadataListDropsOnlyMetadata | third_party/nkata/scripts/utils/content.py:124-143 | with the metadata path in a list, a section is dropped exactly when it is a dot-name or is "metadata" itself |
| Content.StripSource | third_party/nkata/scripts/utils/content.py:108-110 | removing the video-source prefix keeps one item per video item and never lengthens one |
| Content.VideoItemsNeedIgnored | third_party/nkata/scripts/utils/content.py:99-110 | there are video items only when the ignored list is non-empty, so `ignored_sections[0]` is defined whenever it is read |
| Content.GetDivisions | third_party/nkata/scripts/utils/content.py:76-110 | the two lists together are as long as the division |
| Content.DivisionsPartition | third_party/nkata/scripts/utils/content.py:76-110 | every item lands in exactly one list, duplicates counted; each list holds exactly the items of its kind, in division order |
| Content.FirstSegmentWhole | third_party/nkata/scripts/utils/content.py:102 | the first segment of a name without a separator is the name |
| Content.FirstSegmentBeforeSlash | third_party/nkata/scripts/utils/content.py:102 | the first segment is what comes before the first separator |
| Content.VideoItemIff | third_party/nkata/scripts/utils/content.py:88-106 | a plain name is a video item exactly when it is ignored, and `seg/rest` exactly when it or `seg` is ignored |
| Content.VideoItemLosesSource | third_party/nkata/scripts/utils/content.py:108-110 | a video item `src/rest` is handed on as `rest` |
| Content.NormalizeLink | third_party/nkata/scripts/utils/content.py:42-43 | a missing link stays missing and a present one stays present |
| Content.NormalizedLinkHasScheme | third_party/nkata/scripts/utils/content.py:42-43 | a non-empty link contains "http://" after normalisation, and one that already did is unchanged |
| Content.NormalizeLinkIdempotent | third_party/nkata/scripts/utils/content.py:42-43 | normalising twice is normalising once |
| Content.HttpsLinkGetsHttpPrefix | third_party/nkata/scripts/utils/content.py:42-43 | any https link whose remainder holds no "http://" lacks the substring altogether, so it gets a second scheme in front of its own |
| Convert.FileItems | third_party/nkata/scripts/convert.py:168-171 | one item per file name, in listing order |
| Convert.FileItemsPaths | third_party/nkata/scripts/convert.py:168-169 | the items' paths are the names joined to their directory |
| Convert.WalkItemsAreDefaultFileList | third_party/nkata/scripts/convert.py:166-183 | `split` walks the same paths, in the same order, as the default file list of `to_zip` |
| Convert.PackFree | third_party/nkata/scripts/convert.py:162-180 | the free space is always the limit minus what the current part holds |
| Convert.PackFlatten | third_party/nkata/scripts/convert.py:152-186 | the parts, one after the other, give back the walk: nothing lost, repeated or reordered |
| Convert.PlaceKeepsGreedy | third_party/nkata/scripts/convert.py:173-180 | placing one item keeps the parts greedy |
| Convert.PackGreedy | third_party/nkata/scripts/convert.py:152-186 | a part is closed only when the next file would overflow it: each later part starts with such a file |
| Convert.PlaceKeepsFits | third_party/nkata/scripts/convert.py:173-180 | placing one item keeps the property that files after the first of a part fitted |
| Convert.PackFits | third_party/nkata/scripts/convert.py:152-186 | no part closes early: each file that is not first in its part fitted into the part so far |
| Convert.PlaceKeepsWithinBudget | third_party/nkata/scripts/convert.py:173-180 | placing one item keeps every part within the limit, single-file parts excepted |
| Convert.Place | third_party/nkata/scripts/convert.py:173-180 | one walked item: a file that does not fit closes the current part (as written even an empty one) and starts a new part; a directory joins the current part; proved about it: PlaceKeepsGreedy, PlaceKeepsFits, PlaceKeepsWithinBudget |
| Convert.Pack | third_party/nkata/scripts/convert.py:152-186 | the greedy packing of the walked items into parts; proved about it: PackFree, PackFlatten, PackGreedy, PackFits, PackWithinBudget, PackEmptyParts |
| Convert.PackWithinBudget | third_party/nkata/scripts/convert.py:152-186 | every part is within the limit unless it holds exactly one (oversized) file |
| Convert.PackEmptyParts | third_party/nkata/scripts/convert.py:173-177 | only the first part can be empty: when there is nothing to pack or, as written, when the first file exceeds the limit; with the corrected rule it is otherwise never empty |
| Convert.Split | third_party/nkata/scripts/convert.py:152-186 | for a walk `os.walk` of the directory can yield over the store, the parts are the paths of the greedy packing of the walk, with the limit in bytes and the corrected rule |
| Convert.SplitWalk | third_party/nkata/scripts/convert.py:166-183 | the walk loop leaves the packing state of the whole walk |
| Convert.PartsPaths | third_party/nkata/scripts/convert.py:185-186 | the collected lists are the paths of each part, in order |
| Convert.SplitDir | third_party/nkata/scripts/convert.py:166-183 | one walked directory adds its files and then, when it is an empty leaf, itself |
| Convert.PackFiles | third_party/nkata/scripts/convert.py:168-180 | the file loop packs the directory's files in listing order |
| Convert.PlaceFile | third_party/nkata/scripts/convert.py:173-180 | one file: one that does not fit closes a non-empty current part first |
| Convert.PartPathsFlatten | third_party/nkata/scripts/convert.py:185-186 | the paths of the parts, one after the other, are the paths of the items packed |
| Convert.SplitCoversWalk | third_party/nkata/scripts/convert.py:152-186 | under either rule the parts list exactly the default file list of `to_zip`, in order |
| Convert.Decimal | third_party/nkata/scripts/convert.py:85 | `%d` of a natural number is a non-empty string of digits |
| Convert.DecimalInjective | third_party/nkata/scripts/convert.py:85 | different numbers print differently |
| Convert.PartNamesDistinct | third_party/nkata/scripts/convert.py:85 | no two parts of a division share a file name |
| Convert.PartArchivesDistinct | third_party/nkata/scripts/convert.py:81-85 | no two parts of a division share an archive path |
| Convert.MakeArchives | third_party/nkata/scripts/convert.py:65-116 | no archive for a missing directory; without a size the whole directory goes into `<div><ext>`; with one, each part of the corrected split goes into its own archive numbered from 1 (as written, see the third finding) |
| Convert.NumberParts | third_party/nkata/scripts/convert.py:108-112 | one archive per part, part i going into `<div><i+1><ext>` with its own file list |
| Convert.PartsArchiveOwnFiles | third_party/nkata/scripts/convert.py:108-112 | with the corrected rule, each numbered archive receives a non-empty list that `to_zip` stores as given |
| Convert.AsWrittenFirstArchiveHoldsEverything | third_party/nkata/scripts/convert.py:173-177 | as written, a first file larger than the limit leaves part 1 empty, and `to_zip` given that empty list archives the whole tree |
| VerifyConfig.Lookup | third_party/nkata/scripts/verifyconfig.py:67-76 | walking a dotted key segment by segment gives the key's value, or nothing when a segment is missing |
| VerifyConfig.VerifyAndExtractMainConfig | third_party/nkata/scripts/verifyconfig.py:52-86 | the result is the extraction specification: the first missing key is an error, otherwise the configuration, one value, or the list of values |
| VerifyConfig.ValuesFailureSticks | third_party/nkata/scripts/verifyconfig.py:66-76 | once a key is missing, later keys do not change the outcome |
| VerifyConfig.ResolveSteps | third_party/nkata/scripts/verifyconfig.py:69-71 | a dotted path resolves exactly when each segment names an entry of the mapping the segments before it reach |
| VerifyConfig.ResolveAppend | third_party/nkata/scripts/verifyconfig.py:69-71 | resolving a path in two pieces looks up the second in what the first reaches |
| VerifyConfig.ValuesFailure | third_party/nkata/scripts/verifyconfig.py:66-76 | extraction fails exactly when some key is missing, and it names a missing key |
| VerifyConfig.ValuesInOrder | third_party/nkata/scripts/verifyconfig.py:66-78 | when all keys are present their values come back one per key, in key order |
| VerifyConfig.Values | third_party/nkata/scripts/verifyconfig.py:66-76 | the values of the keys in order, or the first key that is missing; proved about it: ValuesFailure, ValuesInOrder, ValuesFailureSticks |
| VerifyConfig.Extract | third_party/nkata/scripts/verifyconfig.py:77-86 | what `verify_and_extract_main_config` returns: the configuration, the value of the only key, or the values of all keys; proved about it: ExtractShape |
| VerifyConfig.ExtractShape | third_party/nkata/scripts/verifyconfig.py:77-86 | without `retprop` the configuration itself is returned; with it one key gives its bare value and any other number a list |
| VerifyConfig.VerifySectionConfig | third_party/nkata/scripts/verifyconfig.py:89-120 | the outcome is the sanity-check specification: missing descriptors reported together, then a missing video source, else success |
| VerifyConfig.CheckSection | third_party/nkata/scripts/verifyconfig.py:102-104 | a section lacks a descriptor exactly when its name does not start with the video source and `section_config.yaml` is not a file in it |
| VerifyConfig.ReportedIff | third_party/nkata/scripts/verifyconfig.py:100-104 | a section is reported exactly when it is listed, does not start with the video source and lacks its descriptor |
| VerifyConfig.ReportInOrder | third_party/nkata/scripts/verifyconfig.py:100-104 | the report keeps section order: the report of a list is that of its first part followed by that of the rest |
| VerifyConfig.SanityPassesIff | third_party/nkata/scripts/verifyconfig.py:89-120 | the check passes exactly when every section that needs a descriptor has one and the video source exists; a missing video source is reported only when all descriptors are present |
| VerifyConfig.SanityCheck | third_party/nkata/scripts/verifyconfig.py:89-120 | the outcome of `verify_section_config`: the sections lacking a descriptor, else a missing video source, else success; proved about it: SanityPassesIff, ReportedIff, ReportInOrder |
| Zipper.DefaultZipPathIsSibling | third_party/nkata/scripts/utils/zipper.py:43-44 | the default archive sits beside the directory: same parent, name plus ".zip" |
| Zipper.ReplaceFirstAtStart | third_party/nkata/scripts/utils/zipper.py:63 | removing a pattern the path starts with removes that prefix |
| Zipper.TrimUnderParent | third_party/nkata/scripts/utils/zipper.py:54-68 | under a parent not ending in a separator, `parent/dir/rest` is stored as `dir/rest`, or as `rest` without the directory's name |
| Zipper.ReplaceFirstAt | third_party/nkata/scripts/utils/zipper.py:63-67 | `replace(pat, "", 1)` removes the first occurrence |
| Zipper.DropSeparatorAfter | third_party/nkata/scripts/utils/zipper.py:65 | the first separator of `dir/rest` is the one after the name |
| Zipper.TrimUnderRoot | third_party/nkata/scripts/utils/zipper.py:54-68 | a directory right under "/" has its separator removed twice: `/dir/rest` is stored as `dirrest` |
| Zipper.TrimPath | third_party/nkata/scripts/utils/zipper.py:54-68 | `trim_path`: the first occurrence of the parent directory removed, then the first separator when there is a parent, then, without the directory's name, its first occurrence with a separator; proved about it: TrimUnderParent, TrimUnderRoot |
| Zipper.NamesUnder | third_party/nkata/scripts/utils/zipper.py:73-74 | one path per name, in order |
| Zipper.DefaultFileListSize | third_party/nkata/scripts/utils/zipper.py:70-78 | the default list holds one path per walked file plus one per empty leaf directory |
| Zipper.DefaultFileList | third_party/nkata/scripts/utils/zipper.py:70-78 | every walked file in walk order, plus every empty leaf directory; proved about it: DefaultFileListSize, ListedPathsExist, Convert.WalkItemsAreDefaultFileList |
| Zipper.EntryFor | third_party/nkata/scripts/utils/zipper.py:82-87 | the entry for one listed path: a directory as its trimmed name plus a separator, a file under its trimmed name with its content, anything else a missing-file error; proved about it: EntryForKinds |
| Zipper.EntryForKinds | third_party/nkata/scripts/utils/zipper.py:82-87 | a listed path can be written exactly when it is a directory or a file; a directory is stored as its trimmed name plus a separator, a file under its trimmed name with its content |
| Zipper.CollectSucceeds | third_party/nkata/scripts/utils/zipper.py:82-87 | the list is written in full exactly when every listed path can be written |
| Zipper.CollectMatches | third_party/nkata/scripts/utils/zipper.py:82-87 | when every path can be written, the entries match the list one for one |
| Zipper.EntriesMatchList | third_party/nkata/scripts/utils/zipper.py:82-87 | the archive holds every listed path, in order, exactly when each is a directory or a file |
| Zipper.NotADirectoryFirst | third_party/nkata/scripts/utils/zipper.py:45-49 | the NotADirectory error occurs exactly when the path is not a directory, before anything is written |
| Zipper.CollectOnlyMisses | third_party/nkata/scripts/utils/zipper.py:82-87 | when a missing path is the only way a path can fail, a failing list fails on a missing path |
| Zipper.EmptyListZipsWholeTree | third_party/nkata/scripts/utils/zipper.py:70-78 | an empty file list counts as no list: the archive then holds the default list of the whole tree |
| Zipper.ToZip | third_party/nkata/scripts/utils/zipper.py:29-90 | for a walk `os.walk` of the directory can yield over the store, the result is the `to_zip` specification: an error for a non-directory or a missing listed path, otherwise the archive at its path with one entry per listed path |
| Zipper.ZipPlan | third_party/nkata/scripts/utils/zipper.py:29-90 | `to_zip` as a specification: NotADirectory for a non-directory, then the archive path, then the entries of the given list or, without one or with an empty one, of the default list; proved about it: NotADirectoryFirst, EntriesMatchList, EmptyListZipsWholeTree, WalkedTreeZips |
| Zipper.WalkedTreeZips | third_party/nkata/scripts/utils/zipper.py:37-90 | without a list, over a walk of the directory, `to_zip` fails exactly when the path is not a directory, and otherwise writes one entry per file and empty leaf directory the walk reports |
| Zipper.ListedPathsExist | third_party/nkata/scripts/utils/zipper.py:70-78 | every path on the default list of a walk over the store is a directory or a regular file |
| Zipper.CollectFileList | third_party/nkata/scripts/utils/zipper.py:70-78 | the walk loop builds the default file list |
| Zipper.CollectNames | third_party/nkata/scripts/utils/zipper.py:73-74 | the name loop joins each name to its directory, in order |
| Zipper.WriteEntries | third_party/nkata/scripts/utils/zipper.py:82-87 | the write loop yields the entries of the list, stopping at the first path that cannot be written |
| Zipper.FailureSticks | third_party/nkata/scripts/utils/zipper.py:82-87 | once a prefix of the list fails, the whole list fails the same way |

## Left out

- File contents and copying (`shutil.copy2`, `open`, `write`) are modelled as a store of path-to-text maps or as recorded operations. Permissions, timestamps and binary data are not modelled.
- The walk `os.walk` yields is a parameter, tied to the store by `FileSystem.WalkOf`: nothing for a path that is not a directory, otherwise the path itself first, then only directories below it, each listing regular files, over a store whose `Valid` holds (no path is both a file and a directory). The order of the directories and of the names within each is free, and the predicate does not require every directory of the tree to be visited. `os.listdir`'s order is a parameter too. Symbolic links are not modelled.
- FileSystem.MakeDirs: paths are compared after textual normalisation only. `.` and `..` components are not resolved. `os.makedirs` raises when an ancestor is a regular file; the model does not check ancestors and would mark such a file a directory too.
- FileUtil.CopyFiles: `copy_files` has no exception handler. A transformation's `apply` that raises (a KeyError for a video missing from the metadata, the TypeError of the first finding), a failed image download, a failing `copy2` or `makedirs` ends the walk at that point. The plan assumes every call returns. `InterruptedCopyFiles` says what is in place when the walk ends after any prefix of its operations; which call raises is not modelled.
- FileUtil.CopyFilesCompletes: stated for a walk in which every call returns. For a walk that a raising call ends early, see `InterruptedCopyFiles`.
- FileUtil.ChainComposes: stated for the corrected chain, which keeps every scratch file until the next call has read it. As written, the second of three or more calls reads a deleted scratch file (`RebindingLosesScratch`, fifth finding).
- FileUtil.WalkMirrors: the store after a walk records only the directories made. The files `copy_files` writes are recorded as `Copied` operations (`WalkCopies` proves which), not written into the store.
- `stat` sizes are a function from path to whole bytes. The source converts sizes to megabytes in floating point; the model compares whole bytes with the limit times 2^20, which is the exact form of that comparison. Floating-point rounding is not modelled.
- The progress bar (`utils/progressbar.py`) is reduced to the (copied, total) pairs it is given. `click.echo` messages and `logging` are left out.
- `tempfile.NamedTemporaryFile` names are a parameter `scratch`. Their deletion when `temp` is rebound is modelled by `ChainRebinding`, as CPython's reference counting does it at once. The deletion of the last scratch file when the function returns is not modelled, since nothing reads it afterwards.
- Running a transformation's `apply` is a function parameter (`run`) in the chaining lemmas. The two `apply` bodies are modelled separately, in HtmlTransform and VideoTransform.
- HtmlTransform: the regular-expression engine that cuts a page into anchors, body tags and text is not modelled; a page is the token sequence it finds. `re.IGNORECASE` is modelled for ASCII letters only (Python 3 also folds a few non-ASCII letters, such as U+017F for `s`).
- HtmlTransform.TransformUnchanged: a page is the token sequence the patterns find, so the lemmas about whole pages (this one and BodyInsertions) require `Found`, which says no body tag hides in the text or anchor tokens. That an external-anchor match never starts inside a text token is part of the tokenisation and is not stated as a predicate. A body tag that a rewritten anchor's colour brings in would be rescanned by the body substitutions; the model does not rescan.
- HtmlTransform.Transform: the three substitutions run one after the other over the whole text, so the closing-tag substitution also scans the header just inserted after `<body>`; a header holding `</body` would get the tracking text too. The model inserts the header as it is, which is faithful when the header holds no closing body tag. BodyInsertions requires that through `PlainConfig`.
- HtmlTransform.Transform: the colour, the header and the tracking text are spliced into replacement templates, where Python expands backslash escapes and group references. The model inserts them literally. That is faithful for the tracking text, which never holds a backslash (`TrackingTextLiteral`). For the colour and the header it holds only when they contain no backslash. The header also follows the group reference `\1` directly, and Python reads digits after `\` greedily: a header starting with a digit either makes an invalid group reference (`1x` gives `\11`, and `re.error` is raised) or an octal escape (`23...` gives `\123`, the letter `S`, and the `<body>` tag is lost). The model inserts such a header literally. BodyInsertions requires a header with no backslash and no leading digit through `PlainConfig`.
- HtmlTransform.BodyInsertions: stated only for a configuration satisfying `PlainConfig`. For any other configuration the source's output can differ, as the two lines above say: a header holding `</body`, a backslash, or starting with a digit.
- HtmlTransform.Transform: the text put before each closing body tag is the corrected `TrackingInsert`, which is empty without a tracking code. As written, the page then shows the text "None" there (`NoCodeShowsNone`, sixth finding). With a tracking code the two texts are the same.
- HtmlTransform.SkipSpaces: `\s` is modelled as Python 3 matches it in a `str` pattern, with the whitespace characters `str.isspace` accepts. Under Python 2 the page is a byte string, and only the six ASCII whitespace characters match.
- HtmlTransform: `_create_header` (reading the header template and setting the online link through BeautifulSoup) is not modelled; the rendered header is part of the configuration.
- HtmlTransform.TrackingTag: the client id drawn from `uuid.uuid1()` is a parameter. The query follows the insertion order of Python 3.7 dictionaries; Python 2 dictionary order is unspecified.
- HtmlTransform.QuotePlusRoundTrip: proved for ASCII text only. Non-ASCII text is quoted as UTF-8, and only its output alphabet is proved.
- VideoTransform: reading a video's YAML descriptor, `isfile` and `download_image` are function parameters. Jinja template rendering and `generate_html`'s directory creation are left out; the model returns the page parameters and the templates that would be rendered.
- VideoTransform.VideoTransformation.Apply does not copy the video file itself; `copy_with_transformations` records that call.
- VideoTransform.NestedInfo: a descriptor whose values are not strings is not modelled; the four values are text.
- Content: `bundle_content_section` and `bundle_video_section` only call `copy_files`, which FileUtil models; only their link normalisation is modelled.
- Convert: `to_iso` (`utils/ISOconverter.py`), `makezip`, `makeiso` and the copying of the index page and images are left out, because they are calls into the archiver and the file system. What is modelled is the list of archives `iso_maker` and `zip_maker` ask for.
- Convert.MakeArchives: the parts come from the corrected `split`. As written, a first file larger than the limit leaves part 1 empty, and the archive `<div>1<ext>` then holds the whole tree (`AsWrittenFirstArchiveHoldsEverything`). The `--size` option arrives as text; the model takes `int(size)` as already parsed, with None for a missing or empty option (the falsy cases of `if size:`). A size that is not a number (a ValueError in the source) is not modelled.
- VerifyConfig: reading and parsing `config.yaml` (`readconfig`) is left out; a parsed document is the input. Indexing a YAML list by a string key raises in Python; the model treats every non-mapping as unindexable, which is the same outcome.
- VerifyConfig: `sys.exit(1)` is modelled as an error result; colours and message text are left out.
- Zipper: `zipfile` compression and the archive's byte format are left out; an archive is its path and its entries in order. `zipfile.write` normalises the archive name of a file (`normpath`, and a leading separator is dropped); directories go through `ZipInfo`, which does not. The model keeps the name `trim_path` gives. Names trimmed from walked paths are already normal. A path from a given file list that is not under the parent directory may not be: `/x/f` would be stored as `x/f`. `normcase` is the identity on POSIX, and Windows paths are not modelled.
- Python's own library functions used throughout (`os.path.join`, `split`, `basename`, `dirname`, `splitext`, `str.replace`, `str.split`, `str.find`, `urllib.parse.quote_plus`) are modelled in the PosixPath, Strings and HtmlTransform modules. They are given no rows of their own above.

## Findings

| source | as written | input that shows it | evidently intended | confidence | as-written member | corrected member |
|---|---|---|---|---|---|---|
| third_party/nkata/scripts/utils/fileutil.py:55 | every intermediate `apply` call passes four arguments (source, scratch file, destination, video folder), but both `apply` methods take five, so Python raises TypeError | any file claimed by two transformations, e.g. a list holding two HTML rewrites and the file `a.html`; with the list the packager builds it stays latent (FileUtil.ShippedListRunsAtMostOne) | each intermediate call passes source, scratch file, final destination, metadata and video folder, like the last call (the corrected member also keeps each scratch file until it is read, fifth row) | not executed | FileUtil.IntermediateCallMissesArgument | FileUtil.ChainComposes |
| third_party/nkata/scripts/transformations/transformvideo.py:239-244 | with a custom template, the rendering is written inside the `if` and again after it, so `index.html` holds the page twice | `generate_video_list_html(d, s, t, p, "custom.html")` with a non-empty video list | the chosen template rendered once | not executed | VideoTransform.CustomTemplateWrittenTwice | VideoTransform.VideoTransformation.GenerateVideoListHtml |
| third_party/nkata/scripts/convert.py:173-177 | a file larger than the limit closes the current part even when that part is empty, so part 1 is an empty list; `to_zip` (utils/zipper.py:70) treats an empty list as no list and archives the whole tree into part 1 | a tree whose first walked file is 3 MB, split with a 1 MB limit | a new part is started only when the current part is not empty | not executed | Convert.AsWrittenFirstArchiveHoldsEverything | Convert.PartsArchiveOwnFiles |
| third_party/nkata/scripts/bundle.py:325-326 | `get_sections` is given the metadata path as one string, so `path in ignored_paths` is a substring test and every video section whose name is a prefix of "metadata" is dropped | a video section named `meta` under the videos folder | the metadata path passed in a list, so that only the `metadata` directory itself is excluded | not executed | Content.MetadataTextDropsPrefixNames | Content.MetadataListDropsOnlyMetadata |
| third_party/nkata/scripts/utils/fileutil.py:53-56 | each intermediate turn binds `temp` to a new `NamedTemporaryFile`, which deletes the one bound before, and only then calls `apply` on that deleted file; latent behind the TypeError of the first row | once the argument count is fixed, any file claimed by three transformations, e.g. a list holding three HTML rewrites and the file `a.html` | keep each scratch file until the next call has read it | not executed | FileUtil.RebindingLosesScratch | FileUtil.ChainComposes |
| third_party/nkata/scripts/transformations/transformhtml.py:167-168 | without a tracking code `_create_tracking_tag` returns None, and `str(None)` puts the text "None" in front of every closing body tag | an HTML page rewritten with an empty `tracking_code` in the configuration | nothing inserted when there is no tracking code | not executed | HtmlTransform.NoCodeShowsNone | HtmlTransform.TrackingInsert |
