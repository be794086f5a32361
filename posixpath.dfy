/** The POSIX flavour of Python's `os.path` functions the packager calls:
    `join`, `split`, `basename`, `dirname` and `splitext`, following the
    standard library's definitions character by character. */
module PosixPath {
  import opened Strings

  type Path = string

  /** The index of the last `c` in `s`, or -1 (Python's `s.rfind(c)`). */
  function RFind(s: string, c: char): (r: int)
    ensures -1 <= r < |s|
    ensures r >= 0 ==> s[r] == c
    ensures forall k :: r < k < |s| ==> s[k] != c
  {
    if s == [] then -1
    else if s[|s| - 1] == c then |s| - 1
    else RFind(s[..|s| - 1], c)
  }

  predicate AllSlashes(s: string) {
    forall k :: 0 <= k < |s| ==> s[k] == '/'
  }

  /** `s.rstrip("/")`. */
  function RStripSlashes(s: string): (r: string)
    ensures |r| <= |s| && r == s[..|r|]
    ensures r == [] || r[|r| - 1] != '/'
    ensures AllSlashes(s[|r|..])
  {
    if s != [] && s[|s| - 1] == '/' then RStripSlashes(s[..|s| - 1]) else s
  }

  /** `os.path.join(a, b)`: an absolute `b` replaces `a`; otherwise a single
      separator is inserted unless `a` is empty or already ends with one. */
  function Join(a: Path, b: Path): (r: Path)
  {
    if StartsWith(b, "/") then b
    else if a == [] || EndsWith(a, "/") then a + b
    else a + "/" + b
  }

  /** Where the last component starts: one past the last separator. */
  function TailStart(p: Path): (i: nat)
    ensures i <= |p|
    ensures '/' !in p[i..]
    ensures i > 0 ==> p[i - 1] == '/'
  {
    var i := RFind(p, '/') + 1;
    assert forall k :: 0 <= k < |p[i..]| ==> p[i..][k] == p[i + k];
    i
  }

  /** `os.path.split(p)`: the head keeps its trailing separators only when it
      consists of nothing else (as for the root "/"). */
  function Split(p: Path): (r: (Path, Path))
    ensures '/' !in r.1
  {
    var i := TailStart(p);
    var head := p[..i];
    (if head != [] && !AllSlashes(head) then RStripSlashes(head) else head, p[i..])
  }

  function Basename(p: Path): Path { Split(p).1 }

  function Dirname(p: Path): Path { Split(p).0 }

  /** What `Join(a, b)` puts in front of a relative `b`. */
  function JoinPrefix(a: Path): Path {
    if a == [] || EndsWith(a, "/") then a else a + "/"
  }

  lemma {:induction false} JoinRelative(a: Path, b: Path)
    requires b == [] || b[0] != '/'
    ensures Join(a, b) == JoinPrefix(a) + b
  {
    assert !StartsWith(b, "/") by { if b != [] { assert b[..1] != "/"; } }
  }

  /** Joining onto the same directory keeps names of the same kind apart. */
  lemma {:induction false} JoinCancel(a: Path, b: Path, c: Path)
    requires StartsWith(b, "/") <==> StartsWith(c, "/")
    requires Join(a, b) == Join(a, c)
    ensures b == c
  {
    if !StartsWith(b, "/") {
      var pre := JoinPrefix(a);
      assert Join(a, b) == pre + b && Join(a, c) == pre + c;
      assert b == (pre + b)[|pre|..] && c == (pre + c)[|pre|..];
    }
  }

  /** The last separator of `p` sits just before index `n`. */
  lemma {:induction false} TailStartAt(p: Path, n: nat)
    requires n <= |p|
    requires n > 0 ==> p[n - 1] == '/'
    requires forall k :: n <= k < |p| ==> p[k] != '/'
    ensures TailStart(p) == n
  {
  }

  /** Splitting a path built by `Join` from a head and one component recovers
      both, provided the head has no stray trailing separator. */
  lemma {:induction false} SplitJoin(h: Path, t: Path)
    requires t != [] && '/' !in t
    requires h == [] || h[|h| - 1] != '/' || AllSlashes(h)
    ensures Split(Join(h, t)) == (h, t)
  {
    JoinRelative(h, t);
    var p := Join(h, t);
    var n := |JoinPrefix(h)|;
    assert p[n..] == t;
    assert p[..n] == JoinPrefix(h);
    TailStartAt(p, n);
    if h != [] && !EndsWith(h, "/") {
      assert !AllSlashes(h + "/") by {
        assert (h + "/")[|h| - 1] == h[|h| - 1];
      }
      assert RStripSlashes(h + "/") == RStripSlashes(h);
    }
  }

  /** `os.path.splitext(p)`: the extension starts at the last dot of the last
      component, unless that component has only dots before it. */
  function SplitExt(p: Path): (r: (Path, string))
    ensures r.0 + r.1 == p
    ensures r.1 == [] || (r.1[0] == '.' && '.' !in r.1[1..] && '/' !in r.1)
  {
    var sepIndex := RFind(p, '/');
    var dotIndex := RFind(p, '.');
    if dotIndex > sepIndex && HasNonDot(p, sepIndex + 1, dotIndex) then
      assert forall k :: 0 <= k < |p[dotIndex..]| ==> p[dotIndex..][k] == p[dotIndex + k];
      assert '.' !in p[dotIndex..][1..];
      (p[..dotIndex], p[dotIndex..])
    else (p, [])
  }

  /** Some character of `p[lo..hi]` is not a dot. */
  predicate HasNonDot(p: string, lo: nat, hi: nat)
    requires lo <= hi <= |p|
  {
    exists k :: lo <= k < hi && p[k] != '.'
  }

  /** The last `c` of `s` is at `i` when no `c` follows it. */
  lemma {:induction false} RFindAt(s: string, c: char, i: nat)
    requires i < |s| && s[i] == c
    requires forall k :: i < k < |s| ==> s[k] != c
    ensures RFind(s, c) == i
  {
  }

  /** A file name `stem + ext`, where `ext` is a dot and a dot-free word and the
      stem has a character other than a dot, splits back into its two parts,
      whatever precedes it. */
  lemma {:induction false} SplitExtParts(pre: Path, stem: string, ext: string)
    requires '/' !in stem && '/' !in ext
    requires |ext| >= 1 && ext[0] == '.' && '.' !in ext[1..]
    requires exists k :: 0 <= k < |stem| && stem[k] != '.'
    ensures SplitExt(pre + stem + ext) == (pre + stem, ext)
  {
    var p := pre + stem + ext;
    var dot := |pre| + |stem|;
    LastDot(pre + stem, ext);
    LastSlashBefore(pre, stem + ext);
    assert pre + (stem + ext) == p;
    assert HasNonDot(p, RFind(p, '/') + 1, dot) by {
      var k :| 0 <= k < |stem| && stem[k] != '.';
      assert p[|pre| + k] == stem[k];
    }
    assert p[..dot] == pre + stem;
    assert p[dot..] == ext;
  }

  /** The dot that starts a dot-free extension is the last dot. */
  lemma {:induction false} LastDot(h: string, ext: string)
    requires |ext| >= 1 && ext[0] == '.' && '.' !in ext[1..]
    ensures RFind(h + ext, '.') == |h|
  {
    var p := h + ext;
    assert p[|h|] == '.';
    forall k | |h| < k < |p| ensures p[k] != '.' {
      assert p[k] == ext[1..][k - |h| - 1];
    }
    RFindAt(p, '.', |h|);
  }

  /** A last separator can only come before a separator-free tail. */
  lemma {:induction false} LastSlashBefore(h: string, t: string)
    requires '/' !in t
    ensures RFind(h + t, '/') < |h|
  {
    var p := h + t;
    forall k | |h| <= k < |p| ensures p[k] != '/' {
      assert p[k] == t[k - |h|];
    }
  }

  /** The same under a directory. */
  lemma {:induction false} SplitExtOf(dir: Path, stem: string, ext: string)
    requires '/' !in stem && '/' !in ext
    requires |ext| >= 1 && ext[0] == '.' && '.' !in ext[1..]
    requires exists k :: 0 <= k < |stem| && stem[k] != '.'
    ensures SplitExt(Join(dir, stem + ext)) == (Join(dir, stem), ext)
  {
    var pre := JoinPrefix(dir);
    assert stem[0] != '/' && (stem + ext)[0] == stem[0];
    JoinRelative(dir, stem + ext);
    JoinRelative(dir, stem);
    SplitExtParts(pre, stem, ext);
    assert pre + (stem + ext) == pre + stem + ext;
  }

  /** The same for a bare file name. */
  lemma {:induction false} SplitExtName(stem: string, ext: string)
    requires '/' !in stem && '/' !in ext
    requires |ext| >= 1 && ext[0] == '.' && '.' !in ext[1..]
    requires exists k :: 0 <= k < |stem| && stem[k] != '.'
    ensures SplitExt(stem + ext) == (stem, ext)
  {
    SplitExtParts([], stem, ext);
    assert [] + stem + ext == stem + ext && [] + stem == stem;
  }
}
