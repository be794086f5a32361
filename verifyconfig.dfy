/** Checking the configuration before any work is done: extracting the
    required (possibly dotted) keys from the main configuration, and checking
    that every section has its descriptor and that the video source exists.
    Where the source prints a message and calls `sys.exit(1)`, the model
    returns the reason as an error value. */
module VerifyConfig {
  import opened Wrappers
  import opened Strings
  import opened PosixPath
  import opened FileSystem
  import opened Seqs

  /** A parsed YAML document: mappings with string keys, lists, and every
      other scalar kept as its text. */
  datatype Value = Mapping(entries: map<string, Value>) | Sequence(items: seq<Value>) | Scalar(text: string)

  // ---------------------------------------------------------------------------
  // verify_and_extract_main_config

  /** Indexing `v` by the segments one after the other. Only a mapping that
      holds the segment can be indexed; anything else raises, which the
      source turns into an exit. */
  function Resolve(v: Value, segs: seq<string>): Option<Value> {
    if segs == [] then Some(v)
    else if v.Mapping? && segs[0] in v.entries then Resolve(v.entries[segs[0]], segs[1..])
    else None
  }

  /** The value of a dotted key such as "destination.main_path". */
  function KeyValue(conf: Value, key: string): Option<Value> {
    Resolve(conf, SplitOn(key, '.'))
  }

  /** What `verify_and_extract_main_config` returns: the whole configuration,
      the value of the only key asked for, or the values of all keys. */
  datatype Extracted = Config(data: Value) | Property(value: Value) | Properties(values: seq<Value>)

  /** The values of `keys` in order, or the first key that is missing. */
  function Values(conf: Value, keys: seq<string>): Result<seq<Value>, string> {
    if keys == [] then Success([])
    else
      match Values(conf, keys[..|keys| - 1])
      case Failure(k) => Failure(k)
      case Success(vs) =>
        match KeyValue(conf, keys[|keys| - 1])
        case None => Failure(keys[|keys| - 1])
        case Some(v) => Success(vs + [v])
  }

  function Extract(conf: Value, keys: seq<string>, retprop: bool): Result<Extracted, string> {
    match Values(conf, keys)
    case Failure(k) => Failure(k)
    case Success(vs) =>
      if !retprop then Success(Config(conf))
      else if |vs| == 1 then Success(Property(vs[0]))
      else Success(Properties(vs))
  }

  /** The inner loop: walking down the configuration one segment at a time. */
  method Lookup(conf: Value, key: string) returns (r: Option<Value>)
    ensures r == KeyValue(conf, key)
  {
    var segs := SplitOn(key, '.');
    var cur := conf;
    var i := 0;
    while i < |segs|
      invariant 0 <= i <= |segs|
      invariant Resolve(conf, segs) == Resolve(cur, segs[i..])
    {
      assert segs[i..][1..] == segs[i + 1..];
      if !(cur.Mapping? && segs[i] in cur.entries) {
        return None;
      }
      cur := cur.entries[segs[i]];
      i := i + 1;
    }
    return Some(cur);
  }

  /** `verify_and_extract_main_config(conf_data, important_keys, retprop)`. */
  method VerifyAndExtractMainConfig(conf: Value, keys: seq<string>, retprop: bool) returns (r: Result<Extracted, string>)
    ensures r == Extract(conf, keys, retprop)
  {
    var properties := [];
    var i := 0;
    while i < |keys|
      invariant 0 <= i <= |keys|
      invariant Values(conf, keys[..i]) == Success(properties)
    {
      assert keys[..i + 1][..i] == keys[..i];
      var v := Lookup(conf, keys[i]);
      if v.None? {
        assert Values(conf, keys[..i + 1]) == Failure(keys[i]);
        ValuesFailureSticks(conf, keys, i + 1);
        return Failure(keys[i]);
      }
      properties := properties + [v.value];
      i := i + 1;
    }
    assert keys[..i] == keys;
    if !retprop {
      return Success(Config(conf));
    }
    if |properties| == 1 {
      return Success(Property(properties[0]));
    }
    return Success(Properties(properties));
  }

  /** Once a key is missing, later keys do not change the outcome. */
  lemma {:induction false} ValuesFailureSticks(conf: Value, keys: seq<string>, n: nat)
    requires n <= |keys| && Values(conf, keys[..n]).Failure?
    ensures Values(conf, keys) == Values(conf, keys[..n])
    decreases |keys| - n
  {
    if n < |keys| {
      assert keys[..n + 1][..n] == keys[..n];
      ValuesFailureSticks(conf, keys, n + 1);
    } else {
      assert keys[..n] == keys;
    }
  }

  /** Segment `i` names an entry of the mapping the segments before it
      reach. */
  predicate StepResolves(v: Value, segs: seq<string>, i: nat)
    requires i < |segs|
  {
    var at := Resolve(v, segs[..i]);
    at.Some? && at.value.Mapping? && segs[i] in at.value.entries
  }

  /** A dotted path resolves exactly when every segment names an entry of the
      mapping reached by the segments before it. */
  lemma {:induction false} ResolveSteps(v: Value, segs: seq<string>)
    ensures Resolve(v, segs).Some? <==> forall i :: 0 <= i < |segs| ==> StepResolves(v, segs, i)
  {
    if segs != [] {
      assert segs[..0] == [];
      if v.Mapping? && segs[0] in v.entries {
        var w := v.entries[segs[0]];
        var rest := segs[1..];
        ResolveSteps(w, rest);
        forall i | 0 < i < |segs| ensures StepResolves(v, segs, i) == StepResolves(w, rest, i - 1) {
          assert segs[..i][1..] == rest[..i - 1];
          assert segs[i] == rest[i - 1];
        }
        if Resolve(v, segs).None? {
          var j :| 0 <= j < |rest| && !StepResolves(w, rest, j);
          assert !StepResolves(v, segs, j + 1);
        }
      } else {
        assert !StepResolves(v, segs, 0);
      }
    }
  }

  /** Resolving a path in two pieces: the second piece is looked up in what
      the first one reaches. */
  lemma {:induction false} ResolveAppend(v: Value, a: seq<string>, b: seq<string>)
    ensures Resolve(v, a + b) == (if Resolve(v, a).Some? then Resolve(Resolve(v, a).value, b) else None)
  {
    if a == [] {
      assert a + b == b;
    } else {
      assert (a + b)[0] == a[0] && (a + b)[1..] == a[1..] + b;
      if v.Mapping? && a[0] in v.entries {
        ResolveAppend(v.entries[a[0]], a[1..], b);
      }
    }
  }

  /** The extraction fails exactly when some key is missing, and it names
      the first missing key. */
  lemma {:induction false} ValuesFailure(conf: Value, keys: seq<string>)
    ensures Values(conf, keys).Failure? <==> exists i :: 0 <= i < |keys| && KeyValue(conf, keys[i]).None?
    ensures Values(conf, keys).Failure? ==>
      exists i :: 0 <= i < |keys| && Values(conf, keys).error == keys[i] && KeyValue(conf, keys[i]).None?
        && forall j :: 0 <= j < i ==> KeyValue(conf, keys[j]).Some?
  {
    if keys != [] {
      var init := keys[..|keys| - 1];
      ValuesFailure(conf, init);
      forall i | 0 <= i < |init| ensures init[i] == keys[i] { }
    }
  }

  /** When every key is present, their values come back in key order. */
  lemma {:induction false} ValuesInOrder(conf: Value, keys: seq<string>)
    requires Values(conf, keys).Success?
    ensures |Values(conf, keys).value| == |keys|
    ensures forall i :: 0 <= i < |keys| ==>
      KeyValue(conf, keys[i]) == Some(Values(conf, keys).value[i])
  {
    if keys != [] {
      var init := keys[..|keys| - 1];
      ValuesInOrder(conf, init);
      forall i | 0 <= i < |init| ensures init[i] == keys[i] { }
    }
  }

  /** With `retprop`, one key gives its bare value and any other number of
      keys gives the list of values; without it, the configuration itself is
      returned unchanged. */
  lemma {:induction false} ExtractShape(conf: Value, keys: seq<string>, retprop: bool)
    requires Extract(conf, keys, retprop).Success?
    ensures !retprop ==> Extract(conf, keys, retprop).value == Config(conf)
    ensures retprop && |keys| == 1 ==>
      Extract(conf, keys, retprop).value == Property(KeyValue(conf, keys[0]).value)
    ensures retprop && |keys| != 1 ==>
      Extract(conf, keys, retprop).value.Properties?
      && |Extract(conf, keys, retprop).value.values| == |keys|
      && forall i :: 0 <= i < |keys| ==>
        KeyValue(conf, keys[i]) == Some(Extract(conf, keys, retprop).value.values[i])
  {
    ValuesInOrder(conf, keys);
  }

  // ---------------------------------------------------------------------------
  // verify_section_config

  /** Why the sanity check stops the program. */
  datatype SanityError = MissingDescriptors(sections: seq<string>) | MissingVideoSource(videoSrc: string)

  /** The descriptor every section directory must hold. */
  function DescriptorOf(srcDir: Path, section: string): Path {
    Join(Join(srcDir, section), "section_config.yaml")
  }

  /** A section needs a descriptor unless its name starts with the video
      source, and lacks one when the file is not there. */
  predicate LacksDescriptor(fs: Store, srcDir: Path, videoSrc: string, section: string) {
    !StartsWith(section, videoSrc) && !IsFile(fs, DescriptorOf(srcDir, section))
  }

  function Lacks(fs: Store, srcDir: Path, videoSrc: string): string -> bool {
    s => LacksDescriptor(fs, srcDir, videoSrc, s)
  }

  /** The sections reported, in the order given. */
  function Unconfigured(fs: Store, srcDir: Path, sections: seq<string>, videoSrc: string): seq<string> {
    Filter(sections, Lacks(fs, srcDir, videoSrc))
  }

  /** The outcome of `verify_section_config`: `None` when it returns
      normally. */
  function SanityCheck(fs: Store, srcDir: Path, sections: seq<string>, videoSrc: string): Option<SanityError> {
    var missing := Unconfigured(fs, srcDir, sections, videoSrc);
    if missing != [] then Some(MissingDescriptors(missing))
    else if !Exists(fs, Join(srcDir, videoSrc)) then Some(MissingVideoSource(videoSrc))
    else None
  }

  /** `verify_section_config(src_dir, sections, video_src)`. */
  method VerifySectionConfig(fs: Store, srcDir: Path, sections: seq<string>, videoSrc: string)
    returns (r: Option<SanityError>)
    ensures r == SanityCheck(fs, srcDir, sections, videoSrc)
  {
    var errors := [];
    var i := 0;
    while i < |sections|
      invariant 0 <= i <= |sections|
      invariant errors == Unconfigured(fs, srcDir, sections[..i], videoSrc)
    {
      var section := sections[i];
      FilterPrefix(sections, i, Lacks(fs, srcDir, videoSrc));
      var lacking := CheckSection(fs, srcDir, section, videoSrc);
      if lacking {
        errors := errors + [section];
      }
      i := i + 1;
    }
    assert sections[..i] == sections;
    if errors != [] {
      return Some(MissingDescriptors(errors));
    }
    if !Exists(fs, Join(srcDir, videoSrc)) {
      return Some(MissingVideoSource(videoSrc));
    }
    return None;
  }

  /** One turn of the loop of `verify_section_config`: a section that does
      not start with the video source needs its descriptor. */
  method CheckSection(fs: Store, srcDir: Path, section: string, videoSrc: string) returns (lacking: bool)
    ensures lacking == LacksDescriptor(fs, srcDir, videoSrc, section)
  {
    lacking := false;
    if !StartsWith(section, videoSrc) {
      if !IsFile(fs, Join(Join(srcDir, section), "section_config.yaml")) {
        lacking := true;
      }
    }
  }

  /** A section is reported exactly when it is one of the sections, needs a
      descriptor and lacks it; sections under the video source never are. */
  lemma {:induction false} ReportedIff(fs: Store, srcDir: Path, sections: seq<string>, videoSrc: string, s: string)
    ensures s in Unconfigured(fs, srcDir, sections, videoSrc) <==>
      s in sections && !StartsWith(s, videoSrc) && !IsFile(fs, DescriptorOf(srcDir, s))
  {
    FilterMembers(sections, Lacks(fs, srcDir, videoSrc), s);
  }

  /** All missing descriptors are reported together, in the order of the
      sections: the report for a list is the report for its first part
      followed by the report for the rest. */
  lemma {:induction false} ReportInOrder(fs: Store, srcDir: Path, a: seq<string>, b: seq<string>, videoSrc: string)
    ensures Unconfigured(fs, srcDir, a + b, videoSrc)
         == Unconfigured(fs, srcDir, a, videoSrc) + Unconfigured(fs, srcDir, b, videoSrc)
  {
    FilterAppend(a, b, Lacks(fs, srcDir, videoSrc));
  }

  /** The check passes exactly when every section that needs a descriptor
      has one and the video source exists; missing descriptors are reported
      before a missing video source. */
  lemma {:induction false} SanityPassesIff(fs: Store, srcDir: Path, sections: seq<string>, videoSrc: string)
    ensures SanityCheck(fs, srcDir, sections, videoSrc).None? <==>
      (forall s :: s in sections && !StartsWith(s, videoSrc) ==> IsFile(fs, DescriptorOf(srcDir, s)))
      && Exists(fs, Join(srcDir, videoSrc))
    ensures SanityCheck(fs, srcDir, sections, videoSrc) == Some(MissingVideoSource(videoSrc)) ==>
      forall s :: s in sections && !StartsWith(s, videoSrc) ==> IsFile(fs, DescriptorOf(srcDir, s))
  {
    var missing := Unconfigured(fs, srcDir, sections, videoSrc);
    forall s | s in sections && !StartsWith(s, videoSrc) && missing == []
      ensures IsFile(fs, DescriptorOf(srcDir, s))
    {
      ReportedIff(fs, srcDir, sections, videoSrc, s);
    }
    if missing != [] {
      ReportedIff(fs, srcDir, sections, videoSrc, missing[0]);
    }
  }
}
