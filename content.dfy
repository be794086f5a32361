/** Choosing what gets bundled: the sections of a source directory, the
    split of a division's list into content sections and video sections,
    and the normalisation of a section's online link. The directory listing
    is a foreign call, so it is handed in as a sequence of names. */
module Content {
  import opened Wrappers
  import opened Strings
  import opened PosixPath
  import opened Seqs

  // ---------------------------------------------------------------------------
  // get_sections

  /** What `ignored_paths` may be: a list of paths (membership is equality
      with one of them) or a single string (membership is Python's substring
      test on `str`). */
  datatype Ignored = Paths(paths: seq<Path>) | Text(text: string)

  /** Python's `path in ignored_paths` for either kind of argument. */
  predicate IsIgnored(ignored: Ignored, path: Path) {
    match ignored
    case Paths(paths) => path in paths
    case Text(text) => Contains(text, path)
  }

  /** A listed name is a section unless it is a dot-name or its path under
      the source directory is ignored. */
  predicate IsContentSection(srcDir: Path, ignored: Ignored, item: string) {
    !StartsWith(item, ".") && !IsIgnored(ignored, Join(srcDir, item))
  }

  /** `get_sections` on the names `listing` of `srcDir`. */
  function GetSections(srcDir: Path, listing: seq<string>, ignored: Ignored): seq<string> {
    Filter(listing, item => IsContentSection(srcDir, ignored, item))
  }

  /** A name is returned exactly when it is listed and is a section, and
      listing order is kept. */
  lemma {:induction false} GetSectionsFilters(srcDir: Path, listing: seq<string>, more: seq<string>, ignored: Ignored, x: string)
    ensures x in GetSections(srcDir, listing, ignored) <==> x in listing && IsContentSection(srcDir, ignored, x)
    ensures GetSections(srcDir, listing + more, ignored) == GetSections(srcDir, listing, ignored) + GetSections(srcDir, more, ignored)
  {
    FilterMembers(listing, item => IsContentSection(srcDir, ignored, item), x);
    FilterAppend(listing, more, item => IsContentSection(srcDir, ignored, item));
  }

  /** With nothing ignored, only the dot-names are dropped. */
  lemma {:induction false} NothingIgnoredDropsDotNames(srcDir: Path, listing: seq<string>)
    ensures forall x :: x in GetSections(srcDir, listing, Paths([])) <==> x in listing && !StartsWith(x, ".")
  {
    forall x ensures x in GetSections(srcDir, listing, Paths([])) <==> x in listing && !StartsWith(x, ".") {
      GetSectionsFilters(srcDir, listing, [], Paths([]), x);
    }
  }

  /** An occurrence at the start is an occurrence. */
  lemma {:induction false} ContainsPrefix(s: string, sub: string)
    requires StartsWith(s, sub)
    ensures Contains(s, sub)
  {
    assert OccursAt(s, sub, 0);
  }

  /** As written: when the metadata directory is passed as a single string,
      every video section whose name is a prefix of "metadata" ("m", "meta",
      ...) is dropped along with the metadata directory itself. */
  lemma {:induction false} MetadataTextDropsPrefixNames(dir: Path, item: string)
    requires StartsWith("metadata", item)
    ensures !IsContentSection(dir, Text(Join(dir, "metadata")), item)
  {
    var prefix := JoinPrefix(dir);
    JoinRelative(dir, "metadata");
    if !StartsWith(item, ".") {
      assert item != [] ==> item[0] == 'm';
      JoinRelative(dir, item);
      assert (prefix + "metadata")[..|prefix + item|] == prefix + item by {
        assert "metadata"[..|item|] == item;
      }
      ContainsPrefix(Join(dir, "metadata"), Join(dir, item));
    }
  }

  /** The intended exclusion, with the metadata directory in a list: a
      section name (which never holds a separator) is dropped exactly when it
      is a dot-name or is "metadata" itself. */
  lemma {:induction false} MetadataListDropsOnlyMetadata(dir: Path, item: string)
    requires '/' !in item
    ensures IsContentSection(dir, Paths([Join(dir, "metadata")]), item) <==> !StartsWith(item, ".") && item != "metadata"
  {
    var prefix := JoinPrefix(dir);
    JoinRelative(dir, "metadata");
    assert item != [] ==> item[0] in item;
    JoinRelative(dir, item);
    if Join(dir, item) == Join(dir, "metadata") {
      assert item == (prefix + item)[|prefix|..];
    }
  }

  // ---------------------------------------------------------------------------
  // get_divisions

  /** Python's `item.split("/")[0]`. */
  function FirstSegment(item: string): string {
    SplitOn(item, '/')[0]
  }

  /** A division item is content unless it, or its first segment, is one of
      the ignored (video) sections. */
  predicate IsContentDivision(item: string, ignoredSections: seq<string>) {
    item !in ignoredSections && FirstSegment(item) !in ignoredSections
  }

  /** The content items, in order. */
  function ContentItems(division: seq<string>, ignoredSections: seq<string>): seq<string> {
    Filter(division, item => IsContentDivision(item, ignoredSections))
  }

  /** The video items, in order, before their source prefix is removed. */
  function VideoItems(division: seq<string>, ignoredSections: seq<string>): seq<string> {
    Filter(division, item => !IsContentDivision(item, ignoredSections))
  }

  /** `item.replace(ignored_sections[0] + "/", "")` on each video item. */
  function StripSource(items: seq<string>, ignoredSections: seq<string>): (r: seq<string>)
    requires items != [] ==> ignoredSections != []
    ensures |r| == |items|
    ensures forall k :: 0 <= k < |r| ==> |r[k]| <= |items[k]|
  {
    if items == [] then []
    else
      ReplaceAllByEmptyShrinks(items[0], ignoredSections[0] + "/");
      [ReplaceAll(items[0], ignoredSections[0] + "/", "")] + StripSource(items[1..], ignoredSections)
  }

  /** A video item is ignored itself or by its first segment, so the list of
      ignored sections is not empty whenever there is one. */
  lemma {:induction false} VideoItemsNeedIgnored(division: seq<string>, ignoredSections: seq<string>)
    ensures VideoItems(division, ignoredSections) != [] ==> ignoredSections != []
  {
    var v := VideoItems(division, ignoredSections);
    if v != [] {
      assert !IsContentDivision(v[0], ignoredSections);
    }
  }

  /** `get_divisions`: (content items, video items without their source
      prefix). */
  function GetDivisions(division: seq<string>, ignoredSections: seq<string>): (r: (seq<string>, seq<string>))
    ensures |r.0| + |r.1| == |division|
  {
    VideoItemsNeedIgnored(division, ignoredSections);
    FilterPartition(division, item => IsContentDivision(item, ignoredSections), item => !IsContentDivision(item, ignoredSections));
    (ContentItems(division, ignoredSections), StripSource(VideoItems(division, ignoredSections), ignoredSections))
  }

  /** Every item lands in exactly one of the two lists, duplicates counted,
      each list holds exactly the division's items of its kind, and both keep
      the division's order. */
  lemma {:induction false} DivisionsPartition(division: seq<string>, more: seq<string>, ignoredSections: seq<string>, x: string)
    ensures multiset(ContentItems(division, ignoredSections)) + multiset(VideoItems(division, ignoredSections))
         == multiset(division)
    ensures x in ContentItems(division, ignoredSections) <==> x in division && IsContentDivision(x, ignoredSections)
    ensures x in VideoItems(division, ignoredSections) <==> x in division && !IsContentDivision(x, ignoredSections)
    ensures ContentItems(division + more, ignoredSections) == ContentItems(division, ignoredSections) + ContentItems(more, ignoredSections)
    ensures VideoItems(division + more, ignoredSections) == VideoItems(division, ignoredSections) + VideoItems(more, ignoredSections)
  {
    var keep := item => IsContentDivision(item, ignoredSections);
    var drop := item => !IsContentDivision(item, ignoredSections);
    FilterPartition(division, keep, drop);
    FilterMembers(division, keep, x);
    FilterMembers(division, drop, x);
    FilterAppend(division, more, keep);
    FilterAppend(division, more, drop);
  }

  /** The first segment of a name without a separator is the whole name. */
  lemma {:induction false} FirstSegmentWhole(item: string)
    requires '/' !in item
    ensures FirstSegment(item) == item
  {
  }

  /** The first segment is what comes before the first separator. */
  lemma {:induction false} FirstSegmentBeforeSlash(seg: string, rest: string)
    requires '/' !in seg
    ensures FirstSegment(seg + "/" + rest) == seg
  {
    var item := seg + "/" + rest;
    assert item[|seg|] == '/';
    var i := IndexOf(item, '/');
    assert i == |seg|;
    assert item[..i] == seg;
  }

  /** Which items are video items: a plain name when it is an ignored
      section, a path `seg/rest` when it or `seg` is one. */
  lemma {:induction false} VideoItemIff(seg: string, rest: Option<string>, ignoredSections: seq<string>)
    requires '/' !in seg
    ensures var item := if rest.Some? then seg + "/" + rest.value else seg;
      !IsContentDivision(item, ignoredSections) <==> item in ignoredSections || seg in ignoredSections
  {
    if rest.Some? {
      FirstSegmentBeforeSlash(seg, rest.value);
    } else {
      FirstSegmentWhole(seg);
    }
  }

  /** A video item `src/rest` of the division, where `rest` holds no further
      `src/`, is bundled from `rest`. */
  lemma {:induction false} VideoItemLosesSource(src: string, rest: string)
    requires '/' !in src
    requires forall j: nat :: !OccursAt(rest, src + "/", j)
    ensures GetDivisions([src + "/" + rest], [src]) == ([], [rest])
  {
    var item := src + "/" + rest;
    FirstSegmentBeforeSlash(src, rest);
    assert ContentItems([item], [src]) == [];
    assert VideoItems([item], [src]) == [item];
    var pre: string := [];
    assert item == pre + (src + "/") + rest;
    ReplaceAllOnce(pre, src + "/", rest, "");
    assert pre + "" + rest == rest;
    assert ReplaceAll(item, src + "/", "") == rest;
    assert StripSource([item], [src]) == [ReplaceAll(item, src + "/", "")] + StripSource([item][1..], [src]);
    assert StripSource([item], [src]) == [rest];
    assert GetDivisions([item], [src]).1 == [rest];
  }

  // ---------------------------------------------------------------------------
  // Online link of a content section

  /** The link normalisation of `bundle_content_section`: a non-empty link
      that does not contain "http://" anywhere gets it prepended; an empty or
      missing link is passed on as it is. */
  function NormalizeLink(link: Option<string>): (r: Option<string>)
    ensures link.None? ==> r.None?
    ensures link.Some? ==> r.Some?
  {
    if link.Some? && link.value != [] && !Contains(link.value, "http://") then Some("http://" + link.value)
    else link
  }

  /** After normalisation a non-empty link contains "http://", and one that
      already did is unchanged. */
  lemma {:induction false} NormalizedLinkHasScheme(link: string)
    requires link != []
    ensures Contains(NormalizeLink(Some(link)).value, "http://")
    ensures Contains(link, "http://") ==> NormalizeLink(Some(link)) == Some(link)
  {
    if !Contains(link, "http://") {
      ContainsPrefix("http://" + link, "http://");
    }
  }

  /** Normalising twice is normalising once. */
  lemma {:induction false} NormalizeLinkIdempotent(link: Option<string>)
    ensures NormalizeLink(NormalizeLink(link)) == NormalizeLink(link)
  {
    if link.Some? && link.value != [] {
      NormalizedLinkHasScheme(link.value);
    }
  }

  /** An https link whose remainder holds no "http://" lacks the substring
      altogether, so it gets a second scheme in front of its own. */
  lemma {:induction false} HttpsLinkGetsHttpPrefix(rest: string)
    requires !Contains(rest, "http://")
    ensures NormalizeLink(Some("https://" + rest)) == Some("http://https://" + rest)
  {
    var link := "https://" + rest;
    forall j: nat ensures !OccursAt(link, "http://", j) {
      if j + 7 <= |link| {
        assert link[j..j + 7][0] == link[j] && link[j..j + 7][4] == link[j + 4];
        if j < 8 {
          assert link[j] == "https://"[j];
          assert j == 0 ==> link[4] == 's';
        } else {
          assert link[j..j + 7] == rest[j - 8..j - 8 + 7];
          assert !OccursAt(rest, "http://", j - 8);
        }
      }
    }
    assert !Contains(link, "http://");
    assert "http://" + link == "http://https://" + rest;
  }
}
