/** The HTML rewrite applied to every `.html` file of a content section
    (HtmlTransformation in transformations/transformhtml.py): absolute http(s)
    links open in a new window and take the configured colour, the information
    header follows the opening body tag and a tracking image precedes the
    closing one.

    A page is modelled as the sequence of tokens the transformation's regular
    expressions pick out of it (anchors, opening and closing body tags, and the
    text between them); the engine that finds them is not modelled. Within an
    anchor, the `target` and `style` substitutions are modelled character by
    character, as is the final `str.replace` of the attribute text inside the
    link. */
module HtmlTransform {
  import opened Wrappers
  import opened Strings

  /** What an HtmlTransformation is constructed with. An empty colour or
      tracking code stands for Python's falsy values (None or ""); `header` is
      the rendered information header, built by BeautifulSoup from a template. */
  datatype Config = Config(linkColor: string, header: string, trackingCode: string)

  /** The transformation claims exactly the paths ending in ".html". */
  predicate Applies(src: string) {
    EndsWith(src, ".html")
  }

  /** The suffix test is exact and case-sensitive. */
  lemma {:induction false} AppliesExactSuffix(stem: string)
    ensures Applies(stem + ".html")
    ensures !Applies(stem + ".HTML") && !Applies(stem + ".htm") && !Applies(stem + ".html ")
  {
    assert (stem + ".html")[|stem|..] == ".html";
    assert (stem + ".HTML")[|stem|..] == ".HTML";
    var s := stem + ".htm";
    if |s| >= 5 {
      assert s[|s| - 1] == 'm';
    }
    var u := stem + ".html ";
    assert u[|u| - 1] == ' ';
  }

  /** The colour given to external links: the configured one, else green. */
  function LinkColor(cfg: Config): (c: string)
    ensures c != []
    ensures cfg.linkColor != [] ==> c == cfg.linkColor
    ensures cfg.linkColor == [] ==> c == "green"
  {
    if cfg.linkColor != [] then cfg.linkColor else "green"
  }

  // ---------------------------------------------------------------------------
  // Documents

  datatype Token =
    | Text(text: string)
      /** `<a` (in either case), the attribute text up to the first `>`, the
          link body, and the closing `</a`, spaces and `>`. */
    | Anchor(open: string, attrs: string, body: string, close: string)
      /** A whole `<body ...>` tag. */
    | BodyOpen(tag: string)
      /** A whole `</body ...>` tag. */
    | BodyClose(tag: string)

  type Document = seq<Token>

  function LinkText(open: string, attrs: string, body: string, close: string): string {
    open + attrs + ">" + body + close
  }

  function RenderToken(t: Token): string {
    match t
    case Text(s) => s
    case Anchor(o, a, b, c) => LinkText(o, a, b, c)
    case BodyOpen(tag) => tag
    case BodyClose(tag) => tag
  }

  /** The page text a token sequence stands for. */
  function Render(d: Document): string {
    if d == [] then [] else RenderToken(d[0]) + Render(d[1..])
  }

  // ---------------------------------------------------------------------------
  // Which anchors are rewritten

  predicate IsQuote(c: char) {
    c == '\'' || c == '"'
  }

  /** `href=['"]https?://` starts at `j` (ignoring case). */
  predicate HrefAt(attrs: string, j: nat) {
    && OccursAtNoCase(attrs, "href=", j)
    && j + 5 < |attrs| && IsQuote(attrs[j + 5])
    && (OccursAtNoCase(attrs, "http://", j + 6) || OccursAtNoCase(attrs, "https://", j + 6))
  }

  /** The link pattern wants at least one attribute character before the
      absolute `href`. */
  predicate IsExternal(attrs: string) {
    exists j :: 1 <= j < |attrs| && HrefAt(attrs, j)
  }

  // ---------------------------------------------------------------------------
  // The `target` and `style` substitutions inside an anchor's attributes

  /** The first index at or after `k` that is not a `\s` character. */
  function SkipSpaces(s: string, k: nat): (e: nat)
    requires k <= |s|
    ensures k <= e <= |s|
    ensures forall j {:trigger IsSpace(s[j])} :: k <= j < e ==> IsSpace(s[j])
    ensures e < |s| ==> !IsSpace(s[e])
    decreases |s| - k
  {
    if k < |s| && IsSpace(s[k]) then SkipSpaces(s, k + 1) else k
  }

  /** The first quote character at or after `k`. */
  function QuoteFrom(s: string, k: nat): (r: Option<nat>)
    ensures r.Some? ==> k <= r.value < |s| && IsQuote(s[r.value])
    ensures r.Some? ==> forall j {:trigger IsQuote(s[j])} :: k <= j < r.value ==> !IsQuote(s[j])
    ensures r.None? ==> forall j {:trigger IsQuote(s[j])} :: k <= j < |s| ==> !IsQuote(s[j])
    decreases |s| - k
  {
    if k >= |s| then None
    else if IsQuote(s[k]) then Some(k)
    else QuoteFrom(s, k + 1)
  }

  /** A match of `name\s*=['"].+?['"]` starting at `i`: the indices of its
      opening and closing quotes. The lazy `.+?` takes at least one character,
      so the closing quote is the first quote two or more places after the
      opening one. */
  function AttrMatch(s: string, name: string, i: nat): (r: Option<(nat, nat)>)
    ensures r.Some? ==> OccursAtNoCase(s, name, i)
    ensures r.Some? ==> i + |name| < r.value.0 && r.value.0 + 2 <= r.value.1 < |s|
    ensures r.Some? ==> s[r.value.0 - 1] == '=' && IsQuote(s[r.value.0]) && IsQuote(s[r.value.1])
    ensures r.Some? ==> forall j {:trigger IsQuote(s[j])} :: r.value.0 + 2 <= j < r.value.1 ==> !IsQuote(s[j])
  {
    if !OccursAtNoCase(s, name, i) then None
    else
      var e := SkipSpaces(s, i + |name|);
      if e + 1 < |s| && s[e] == '=' && IsQuote(s[e + 1]) then
        match QuoteFrom(s, e + 3)
        case Some(m) => Some((e + 1, m))
        case None => None
      else None
  }

  /** The two substitutions made inside an external anchor. */
  datatype Rule = TargetRule | StyleRule(color: string)

  function RuleName(rule: Rule): string {
    match rule
    case TargetRule => "target"
    case StyleRule(_) => "style"
  }

  /** What a match with quotes at `q` and `m` is replaced by: `target='_blank'`,
      or the matched style value with the colour appended. */
  function Replacement(s: string, q: nat, m: nat, rule: Rule): string {
    match rule
    case TargetRule => "target='_blank'"
    case StyleRule(c) => "style='" + (if q < m <= |s| then s[q + 1..m] else []) + "; color: " + c + "'"
  }

  /** The replacement of a rule for the matches in `s`. */
  function ReplacementsOf(s: string, rule: Rule): (nat, nat) -> string {
    (q: nat, m: nat) => Replacement(s, q, m, rule)
  }

  /** Where a pattern matches in `s`: for each start index, the indices of
      the opening and closing quotes of the match there, if any. */
  type Finder = nat -> Option<(nat, nat)>

  /** The matches of a rule's pattern in `s`. */
  function MatchesOf(s: string, rule: Rule): Finder {
    j => AttrMatch(s, RuleName(rule), j)
  }

  /** Every match lies inside `s` and ends after it starts. */
  ghost predicate Inside(s: string, find: Finder) {
    forall j: nat :: j < |s| && find(j).Some? ==> j < find(j).value.0 < find(j).value.1 < |s|
  }

  lemma {:induction false} MatchesInside(s: string, rule: Rule)
    ensures Inside(s, MatchesOf(s, rule))
  {
    forall j: nat | j < |s| && MatchesOf(s, rule)(j).Some?
      ensures j < MatchesOf(s, rule)(j).value.0 < MatchesOf(s, rule)(j).value.1 < |s|
    {
      var r := AttrMatch(s, RuleName(rule), j);
    }
  }

  /** The scan of `re.subn` from index `i`, matches taken from `find`: every
      non-overlapping match, leftmost first, replaced, and the number of
      replacements. */
  function SubFrom(s: string, i: nat, find: Finder, rep: (nat, nat) -> string): (string, nat)
    requires i <= |s| && Inside(s, find)
    decreases |s| - i
  {
    if i == |s| then ([], 0)
    else
      match find(i)
      case Some((q, m)) =>
        var rest := SubFrom(s, m + 1, find, rep);
        (rep(q, m) + rest.0, rest.1 + 1)
      case None =>
        var rest := SubFrom(s, i + 1, find, rep);
        ([s[i]] + rest.0, rest.1)
  }

  /** `re.subn(pattern, replacement, s)`. */
  function Sub(s: string, rule: Rule): (string, nat) {
    MatchesInside(s, rule);
    SubFrom(s, 0, MatchesOf(s, rule), ReplacementsOf(s, rule))
  }

  /** No match starts in `[lo, hi)`. */
  ghost predicate NoneIn(find: Finder, lo: nat, hi: nat) {
    forall j: nat :: lo <= j < hi ==> find(j).None?
  }

  /** The rule's pattern matches nowhere in `[lo, hi)`. */
  ghost predicate NoMatchIn(s: string, rule: Rule, lo: nat, hi: nat) {
    NoneIn(MatchesOf(s, rule), lo, hi)
  }

  /** Positions without a match are copied through unchanged. */
  lemma {:induction false} SubSkip(s: string, i: nat, j: nat, find: Finder, rep: (nat, nat) -> string)
    requires i <= j <= |s| && Inside(s, find) && NoneIn(find, i, j)
    ensures SubFrom(s, i, find, rep) == (s[i..j] + SubFrom(s, j, find, rep).0, SubFrom(s, j, find, rep).1)
    decreases j - i
  {
    if i < j {
      var x := SubFrom(s, j, find, rep).0;
      var next := SubFrom(s, i + 1, find, rep);
      assert SubFrom(s, i, find, rep) == ([s[i]] + next.0, next.1) by {
        assert find(i).None?;
      }
      SubSkip(s, i + 1, j, find, rep);
      assert [s[i]] + (s[i + 1..j] + x) == s[i..j] + x by {
        AppendAssoc([s[i]], s[i + 1..j], x);
        assert [s[i]] + s[i + 1..j] == s[i..j];
      }
    } else {
      assert s[i..j] == [];
      assert [] + SubFrom(s, j, find, rep).0 == SubFrom(s, j, find, rep).0;
    }
  }

  lemma {:induction false} AppendAssoc(a: string, b: string, c: string)
    ensures a + (b + c) == (a + b) + c
  {
  }

  /** With no match from `i` on, the rest is copied and nothing counted. */
  lemma {:induction false} SubRest(s: string, i: nat, find: Finder, rep: (nat, nat) -> string)
    requires i <= |s| && Inside(s, find) && NoneIn(find, i, |s|)
    ensures SubFrom(s, i, find, rep) == (s[i..], 0)
  {
    SubSkip(s, i, |s|, find, rep);
    assert SubFrom(s, |s|, find, rep) == ([], 0);
    assert s[i..|s|] + [] == s[i..];
  }

  /** The single match at `p`, with nothing before or after it. */
  ghost predicate OnlyAt(s: string, find: Finder, p: nat) {
    p < |s| && find(p).Some? && NoneIn(find, 0, p) && find(p).value.1 < |s| && NoneIn(find, find(p).value.1 + 1, |s|)
  }

  /** A single match is replaced and the text around it kept. */
  lemma {:induction false} SubAround(s: string, p: nat, find: Finder, rep: (nat, nat) -> string)
    requires Inside(s, find) && OnlyAt(s, find, p)
    ensures var (q, m) := find(p).value;
      SubFrom(s, 0, find, rep) == (s[..p] + rep(q, m) + s[m + 1..], 1)
  {
    var (q, m) := find(p).value;
    var r := rep(q, m);
    var tail := s[m + 1..];
    assert SubFrom(s, p, find, rep) == (r + tail, 1) by {
      SubRest(s, m + 1, find, rep);
    }
    assert SubFrom(s, 0, find, rep) == (s[0..p] + (r + tail), 1) by {
      SubSkip(s, 0, p, find, rep);
    }
    assert s[0..p] + (r + tail) == s[..p] + r + tail;
  }

  /** The count is positive exactly when some position matches. */
  lemma {:induction false} SubCounts(s: string, i: nat, find: Finder, rep: (nat, nat) -> string)
    requires i <= |s| && Inside(s, find)
    ensures SubFrom(s, i, find, rep).1 > 0 <==> !NoneIn(find, i, |s|)
    decreases |s| - i
  {
    if i < |s| {
      if find(i).Some? {
        assert !NoneIn(find, i, |s|);
      } else {
        SubCounts(s, i + 1, find, rep);
        assert NoneIn(find, i, |s|) <==> NoneIn(find, i + 1, |s|);
      }
    }
  }

  /** With no match anywhere, the substitution changes nothing and counts
      nothing. */
  lemma {:induction false} SubNone(s: string, rule: Rule)
    requires NoMatchIn(s, rule, 0, |s|)
    ensures Sub(s, rule) == (s, 0)
  {
    MatchesInside(s, rule);
    SubRest(s, 0, MatchesOf(s, rule), ReplacementsOf(s, rule));
  }

  /** `s` with its match at `p` replaced by the rule's replacement. */
  function ReplaceMatch(s: string, p: nat, rule: Rule): string
    requires AttrMatch(s, RuleName(rule), p).Some?
  {
    var found := AttrMatch(s, RuleName(rule), p).value;
    s[..p] + Replacement(s, found.0, found.1, rule) + s[found.1 + 1..]
  }

  /** The match at `p` is the only one to be replaced. */
  ghost predicate OnlyMatchAt(s: string, p: nat, rule: Rule) {
    OnlyAt(s, MatchesOf(s, rule), p)
  }

  /** A single match is replaced and the text around it kept. */
  lemma {:induction false} SubOne(s: string, p: nat, rule: Rule)
    requires OnlyMatchAt(s, p, rule)
    ensures Sub(s, rule) == (ReplaceMatch(s, p, rule), 1)
  {
    var find := MatchesOf(s, rule);
    assert Inside(s, find) by {
      MatchesInside(s, rule);
    }
    var (q, m) := find(p).value;
    var rep := ReplacementsOf(s, rule);
    assert SubFrom(s, 0, find, rep) == (s[..p] + rep(q, m) + s[m + 1..], 1) by {
      SubAround(s, p, find, rep);
    }
    assert ReplaceMatch(s, p, rule) == s[..p] + Replacement(s, q, m, rule) + s[m + 1..] by {
      assert find(p) == AttrMatch(s, RuleName(rule), p);
    }
    assert Sub(s, rule) == SubFrom(s, 0, find, rep);
  }

  /** The count is positive exactly when the pattern matches somewhere. */
  lemma {:induction false} SubCount(s: string, rule: Rule)
    ensures Sub(s, rule).1 > 0 <==> !NoMatchIn(s, rule, 0, |s|)
  {
    MatchesInside(s, rule);
    SubCounts(s, 0, MatchesOf(s, rule), ReplacementsOf(s, rule));
  }

  /** The attribute text of a rewritten anchor: `target`s replaced and `style`s
      extended, followed by whichever of the two attributes was missing. */
  function NewAttrs(attrs: string, color: string): string {
    var t := Sub(attrs, TargetRule);
    var st := Sub(t.0, StyleRule(color));
    st.0
    + (if t.1 == 0 then " target='_blank' " else "")
    + (if st.1 == 0 then " style='color: " + color + "' " else "")
  }

  /** An anchor with neither attribute gets ` target='_blank' ` and then
      ` style='color: <c>' ` appended to its attribute text. */
  lemma {:induction false} NewAttrsAppend(attrs: string, color: string)
    requires NoMatchIn(attrs, TargetRule, 0, |attrs|)
    requires NoMatchIn(attrs, StyleRule(color), 0, |attrs|)
    ensures NewAttrs(attrs, color) == attrs + " target='_blank' " + " style='color: " + color + "' "
  {
    SubNone(attrs, TargetRule);
    SubNone(attrs, StyleRule(color));
  }

  /** An anchor with one `target` and, once that is rewritten, one `style`:
      the target becomes `target='_blank'`, the colour is appended inside the
      style value, and nothing is added. */
  lemma {:induction false} NewAttrsInPlace(attrs: string, color: string, p: nat, p2: nat)
    requires OnlyMatchAt(attrs, p, TargetRule)
    requires OnlyMatchAt(ReplaceMatch(attrs, p, TargetRule), p2, StyleRule(color))
    ensures NewAttrs(attrs, color) == ReplaceMatch(ReplaceMatch(attrs, p, TargetRule), p2, StyleRule(color))
  {
    SubOne(attrs, p, TargetRule);
    var mid := ReplaceMatch(attrs, p, TargetRule);
    SubOne(mid, p2, StyleRule(color));
    assert NewAttrs(attrs, color) == ReplaceMatch(mid, p2, StyleRule(color)) + "" + "";
  }

  /** `transform_link`: every occurrence of the attribute text in the whole
      link is replaced by the new attribute text. */
  function TransformLink(open: string, attrs: string, body: string, close: string, color: string): string {
    ReplaceAll(LinkText(open, attrs, body, close), attrs, NewAttrs(attrs, color))
  }

  /** When the attribute text occurs nowhere else in the link, the link's
      attribute text is simply exchanged for the new one. */
  lemma {:induction false} TransformLinkExchanges(open: string, attrs: string, body: string, close: string, color: string)
    requires attrs != []
    requires forall j: nat :: j < |open| ==> !OccursAt(LinkText(open, attrs, body, close), attrs, j)
    requires forall j: nat :: !OccursAt(">" + body + close, attrs, j)
    ensures TransformLink(open, attrs, body, close, color) == LinkText(open, NewAttrs(attrs, color), body, close)
  {
    var rest := ">" + body + close;
    var rep := NewAttrs(attrs, color);
    assert LinkText(open, attrs, body, close) == open + attrs + rest;
    ReplaceAllOnce(open, attrs, rest, rep);
    assert LinkText(open, rep, body, close) == open + rep + rest;
  }

  // ---------------------------------------------------------------------------
  // The tracking image

  /** Characters `quote_plus` leaves alone. */
  predicate IsUnreserved(c: char) {
    ('a' <= c <= 'z') || ('A' <= c <= 'Z') || ('0' <= c <= '9') || c == '_' || c == '.' || c == '-' || c == '~'
  }

  function HexDigit(n: nat): (c: char)
    requires n < 16
    ensures IsUnreserved(c) && c != '.' && c != '-' && c != '_' && c != '~'
  {
    "0123456789ABCDEF"[n]
  }

  /** The UTF-8 encoding of one character. */
  function Utf8(c: char): (bytes: seq<nat>)
    ensures 1 <= |bytes| <= 4
    ensures forall k :: 0 <= k < |bytes| ==> bytes[k] < 256
    ensures c as int < 128 ==> bytes == [c as int]
  {
    var n := c as int;
    if n < 0x80 then [n]
    else if n < 0x800 then [0xC0 + n / 64, 0x80 + n % 64]
    else if n < 0x10000 then [0xE0 + n / 4096, 0x80 + (n / 64) % 64, 0x80 + n % 64]
    else [0xF0 + n / 262144, 0x80 + (n / 4096) % 64, 0x80 + (n / 64) % 64, 0x80 + n % 64]
  }

  /** Characters that can appear in `quote_plus` output. */
  predicate IsQuoted(c: char) {
    IsUnreserved(c) || c == '+' || c == '%'
  }

  function PercentBytes(bytes: seq<nat>): (r: string)
    requires forall k :: 0 <= k < |bytes| ==> bytes[k] < 256
    ensures |r| == 3 * |bytes|
    ensures forall k :: 0 <= k < |r| ==> IsQuoted(r[k])
  {
    if bytes == [] then []
    else ['%', HexDigit(bytes[0] / 16), HexDigit(bytes[0] % 16)] + PercentBytes(bytes[1..])
  }

  /** `quote_plus` on one character. */
  function QuoteChar(c: char): (r: string)
    ensures forall k :: 0 <= k < |r| ==> IsQuoted(r[k])
  {
    if IsUnreserved(c) then [c]
    else if c == ' ' then "+"
    else PercentBytes(Utf8(c))
  }

  /** `urllib.parse.quote_plus`: the output uses only unreserved characters,
      `+` and `%`, so it holds no `&`, `=` or `"`. */
  function QuotePlus(s: string): (r: string)
    ensures forall k :: 0 <= k < |r| ==> IsQuoted(r[k])
    ensures |r| >= |s|
  {
    if s == [] then [] else QuoteChar(s[0]) + QuotePlus(s[1..])
  }

  /** A string of unreserved characters is quoted as itself. */
  lemma {:induction false} QuotePlusUnreserved(s: string)
    requires forall k :: 0 <= k < |s| ==> IsUnreserved(s[k])
    ensures QuotePlus(s) == s
  {
    if s != [] {
      QuotePlusUnreserved(s[1..]);
    }
  }

  function HexValue(c: char): (n: nat)
    ensures n < 16
  {
    if '0' <= c <= '9' then c as int - '0' as int
    else if 'A' <= c <= 'F' then c as int - 'A' as int + 10
    else if 'a' <= c <= 'f' then c as int - 'a' as int + 10
    else 0
  }

  predicate IsHex(c: char) {
    ('0' <= c <= '9') || ('A' <= c <= 'F') || ('a' <= c <= 'f')
  }

  /** `urllib.parse.unquote_plus` for percent escapes of single bytes below
      128: the inverse the tracking server applies to each value. */
  function UnquotePlus(s: string): string {
    if s == [] then []
    else if s[0] == '+' then " " + UnquotePlus(s[1..])
    else if s[0] == '%' && |s| >= 3 && IsHex(s[1]) && IsHex(s[2]) && HexValue(s[1]) < 8 then
      [(16 * HexValue(s[1]) + HexValue(s[2])) as char] + UnquotePlus(s[3..])
    else [s[0]] + UnquotePlus(s[1..])
  }

  lemma {:induction false} HexRoundTrip(n: nat)
    requires n < 16
    ensures IsHex(HexDigit(n)) && HexValue(HexDigit(n)) == n
  {
  }

  /** Unquoting undoes the quoting of one ASCII character, whatever
      follows it. */
  lemma {:induction false} UnquoteQuoteChar(c: char, rest: string)
    requires c as int < 128
    ensures UnquotePlus(QuoteChar(c) + rest) == [c] + UnquotePlus(rest)
  {
    var q := QuoteChar(c);
    if IsUnreserved(c) {
      assert q + rest == [c] + rest;
      assert ([c] + rest)[1..] == rest;
    } else if c == ' ' {
      assert q + rest == ['+'] + rest;
      assert (['+'] + rest)[1..] == rest;
    } else {
      var n := c as int;
      HexRoundTrip(n / 16);
      HexRoundTrip(n % 16);
      assert q == PercentBytes([n]);
      assert q == ['%', HexDigit(n / 16), HexDigit(n % 16)];
      var t := q + rest;
      assert t[0] == '%' && t[1] == HexDigit(n / 16) && t[2] == HexDigit(n % 16);
      assert t[3..] == rest;
      assert (16 * (n / 16) + n % 16) as char == c;
    }
  }

  /** Quoting an ASCII string and unquoting it gives the string back. */
  lemma {:induction false} QuotePlusRoundTrip(s: string)
    requires forall k :: 0 <= k < |s| ==> s[k] as int < 128
    ensures UnquotePlus(QuotePlus(s)) == s
  {
    if s != [] {
      QuotePlusRoundTrip(s[1..]);
      UnquoteQuoteChar(s[0], QuotePlus(s[1..]));
    }
  }

  const CollectUrl := "http://www.google-analytics.com/collect?"

  /** The fixed query parameters of the tracking image, in the order they are
      added to the dictionary. */
  const FixedPairs: seq<(string, string)> :=
    [("v", "1"), ("t", "pageview"), ("ec", "page"), ("ea", "open"), ("cm", "site"),
     ("cs", "offlinedevsite"), ("cn", "OfflineDevContent")]

  /** All query parameters: the fixed ones, the tracking code, the page and the
      client id drawn from `uuid1`. */
  function TrackingPairs(code: string, dst: string, cid: string): seq<(string, string)> {
    FixedPairs + [("tid", code), ("dp", dst), ("cid", cid)]
  }

  /** One `key=value` field of an encoded query. */
  function EncodeField(p: (string, string)): string {
    QuotePlus(p.0) + "=" + QuotePlus(p.1)
  }

  function EncodePairs(ps: seq<(string, string)>): (r: seq<string>)
    ensures |r| == |ps|
    ensures forall k :: 0 <= k < |r| ==> r[k] == EncodeField(ps[k])
  {
    if ps == [] then [] else [EncodeField(ps[0])] + EncodePairs(ps[1..])
  }

  /** `urlencode(pairs)`. */
  function UrlEncode(ps: seq<(string, string)>): string
    requires ps != []
  {
    JoinWith(EncodePairs(ps), '&')
  }

  /** `_create_tracking_tag`: None without a tracking code, else the image tag. */
  function TrackingTag(code: string, dst: string, cid: string): (r: Option<string>)
    ensures code == [] <==> r.None?
    ensures r.Some? ==> StartsWith(r.value, "<img src=\"" + CollectUrl)
  {
    if code == [] then None
    else Some("<img src=\"" + CollectUrl + UrlEncode(TrackingPairs(code, dst, cid)) + "\">")
  }

  /** `str()` of the tracking tag, as the code inserts it into the page:
      without a tracking code the tag is None, and its text is "None". */
  function TrackingText(code: string, dst: string, cid: string): string {
    match TrackingTag(code, dst, cid)
    case None => "None"
    case Some(tag) => tag
  }

  /** As written, a page rewritten without a tracking code shows the text
      "None" in front of each closing body tag. */
  lemma {:induction false} NoCodeShowsNone(code: string, dst: string, cid: string)
    requires code == []
    ensures TrackingText(code, dst, cid) == "None"
    ensures TrackingText(code, dst, cid) != TrackingInsert(code, dst, cid)
  {
  }

  /** The text evidently meant to go in front of the closing body tag, which
      `Transform` inserts: nothing without a tracking code, otherwise the
      tracking image tag, as the code already does. */
  function TrackingInsert(code: string, dst: string, cid: string): (r: string)
    ensures r == [] <==> code == []
    ensures code != [] ==> r == TrackingText(code, dst, cid) && StartsWith(r, "<img src=\"" + CollectUrl)
  {
    match TrackingTag(code, dst, cid)
    case None => []
    case Some(tag) => tag
  }

  /** An encoded field holds neither a field separator, a double quote nor a
      backslash. */
  lemma {:induction false} EncodedFieldSafe(p: (string, string))
    ensures '&' !in EncodeField(p) && '"' !in EncodeField(p) && '\\' !in EncodeField(p)
  {
    QuotedSafe(QuotePlus(p.0));
    QuotedSafe(QuotePlus(p.1));
  }

  /** Quoted text holds neither `&`, `"` nor a backslash. */
  lemma {:induction false} QuotedSafe(q: string)
    requires forall k :: 0 <= k < |q| ==> IsQuoted(q[k])
    ensures '&' !in q && '"' !in q && '\\' !in q
  {
    forall k | 0 <= k < |q| ensures q[k] != '&' && q[k] != '"' && q[k] != '\\' {
      assert IsQuoted(q[k]);
    }
  }

  /** The tracking text holds no backslash, so the replacement template it
      is spliced into before the closing body tag inserts it as it is. */
  lemma {:induction false} TrackingTextLiteral(code: string, dst: string, cid: string)
    ensures '\\' !in TrackingText(code, dst, cid)
  {
    if code != [] {
      var q := UrlEncode(TrackingPairs(code, dst, cid));
      assert '\\' !in q by {
        QueryLiteral(TrackingPairs(code, dst, cid));
      }
      assert '\\' !in "<img src=\"" + CollectUrl by {
        var prefix := "<img src=\"" + CollectUrl;
        assert forall k :: 0 <= k < |prefix| ==> prefix[k] != '\\';
      }
      assert TrackingText(code, dst, cid) == ("<img src=\"" + CollectUrl) + q + "\">";
    }
  }

  /** The corrected text is empty or the same tag, so it too is inserted as
      it is. */
  lemma {:induction false} TrackingInsertLiteral(code: string, dst: string, cid: string)
    ensures '\\' !in TrackingInsert(code, dst, cid)
  {
    TrackingTextLiteral(code, dst, cid);
  }

  /** An encoded query holds no backslash. */
  lemma {:induction false} QueryLiteral(ps: seq<(string, string)>)
    requires ps != []
    ensures '\\' !in UrlEncode(ps)
  {
    var enc := EncodePairs(ps);
    forall k | 0 <= k < |enc| ensures '\\' !in enc[k] {
      EncodedFieldSafe(ps[k]);
    }
    JoinWithAvoids(enc, '&', '\\');
  }

  /** An encoded query splits at `&` back into its encoded fields, none of
      which holds a `"`. */
  lemma {:induction false} UrlEncodeSplits(ps: seq<(string, string)>)
    requires ps != []
    ensures SplitOn(UrlEncode(ps), '&') == EncodePairs(ps)
    ensures forall k :: 0 <= k < |ps| ==> '"' !in EncodePairs(ps)[k]
  {
    var enc := EncodePairs(ps);
    forall k | 0 <= k < |enc| ensures '&' !in enc[k] && '"' !in enc[k] {
      EncodedFieldSafe(ps[k]);
    }
    JoinSplitOn(enc, '&');
  }

  /** The tracking query splits back into its ten `key=value` fields, the
      eighth carrying the tracking code and the ninth the page; no field holds
      a `"`, so the `src` attribute is not cut short. */
  lemma {:induction false} TrackingQueryFields(code: string, dst: string, cid: string)
    ensures var fields := SplitOn(UrlEncode(TrackingPairs(code, dst, cid)), '&');
            && |fields| == 10
            && fields[7] == "tid=" + QuotePlus(code)
            && fields[8] == "dp=" + QuotePlus(dst)
            && forall k :: 0 <= k < 10 ==> '"' !in fields[k]
  {
    UrlEncodeSplits(TrackingPairs(code, dst, cid));
    assert |FixedPairs| == 7;
    ParameterFields(FixedPairs, code, dst, cid);
  }

  /** The fields for the code and the page follow the fixed ones. */
  lemma {:induction false} ParameterFields(fixed: seq<(string, string)>, code: string, dst: string, cid: string)
    ensures var enc := EncodePairs(fixed + [("tid", code), ("dp", dst), ("cid", cid)]);
            && |enc| == |fixed| + 3
            && enc[|fixed|] == "tid=" + QuotePlus(code)
            && enc[|fixed| + 1] == "dp=" + QuotePlus(dst)
  {
    var ps := fixed + [("tid", code), ("dp", dst), ("cid", cid)];
    assert ps[|fixed|] == ("tid", code) && ps[|fixed| + 1] == ("dp", dst);
    PlainKeys();
    assert "tid" + "=" == "tid=" && "dp" + "=" == "dp=";
  }

  /** The two keys need no quoting. */
  lemma {:induction false} PlainKeys()
    ensures QuotePlus("tid") == "tid" && QuotePlus("dp") == "dp"
  {
    QuotePlusUnreserved("tid");
    QuotePlusUnreserved("dp");
  }

  // ---------------------------------------------------------------------------
  // The transformation of a whole page

  /** One token of `transform`: external anchors are rewritten, the header is
      put after an opening body tag and the tracking text before a closing one. */
  function TransformToken(cfg: Config, t: Token, dst: string, cid: string): string {
    match t
    case Text(s) => s
    case Anchor(o, a, b, c) =>
      if IsExternal(a) then TransformLink(o, a, b, c, LinkColor(cfg)) else LinkText(o, a, b, c)
    case BodyOpen(tag) => tag + cfg.header
    case BodyClose(tag) => TrackingInsert(cfg.trackingCode, dst, cid) + tag
  }

  /** `transform(html, dst)`. */
  function Transform(cfg: Config, d: Document, dst: string, cid: string): string {
    if d == [] then [] else TransformToken(cfg, d[0], dst, cid) + Transform(cfg, d[1..], dst, cid)
  }

  /** The rewrite works piece by piece: a page cut in two is transformed as
      its two halves. */
  lemma {:induction false} TransformAppend(cfg: Config, d1: Document, d2: Document, dst: string, cid: string)
    ensures Transform(cfg, d1 + d2, dst, cid) == Transform(cfg, d1, dst, cid) + Transform(cfg, d2, dst, cid)
    decreases |d1|
  {
    if d1 != [] {
      var t0 := TransformToken(cfg, d1[0], dst, cid);
      assert (d1 + d2)[0] == d1[0] && (d1 + d2)[1..] == d1[1..] + d2;
      assert Transform(cfg, d1 + d2, dst, cid) == t0 + Transform(cfg, d1[1..] + d2, dst, cid);
      TransformAppend(cfg, d1[1..], d2, dst, cid);
      assert t0 + (Transform(cfg, d1[1..], dst, cid) + Transform(cfg, d2, dst, cid))
          == (t0 + Transform(cfg, d1[1..], dst, cid)) + Transform(cfg, d2, dst, cid);
    } else {
      assert d1 + d2 == d2;
    }
  }

  predicate Untouched(t: Token) {
    t.Text? || (t.Anchor? && !IsExternal(t.attrs))
  }

  /** Neither an opening nor a closing body tag starts anywhere in `s`, in
      any letter case. */
  predicate NoBodyTags(s: string) {
    NoBodyClose(s) && forall i :: 0 <= i <= |s| ==> !OccursAtNoCase(s, OpenBody, i)
  }

  const OpenBody := "<body"

  /** The tokens of `d` are how the substitutions see its text: the body tag
      patterns match nowhere in the text of its text and anchor tokens, so
      they match exactly at its `BodyOpen` and `BodyClose` tokens. */
  predicate Found(d: Document) {
    NoBodyTags(Render(d))
  }

  /** A page without body tags and without absolute http(s) anchors comes out
      as it went in; in particular the empty page stays empty. */
  lemma {:induction false} TransformUnchanged(cfg: Config, d: Document, dst: string, cid: string)
    requires Found(d)
    requires forall k :: 0 <= k < |d| ==> Untouched(d[k])
    ensures Transform(cfg, d, dst, cid) == Render(d)
  {
    if d != [] {
      NoBodyTagsSuffix(RenderToken(d[0]), Render(d[1..]));
      TransformUnchanged(cfg, d[1..], dst, cid);
    }
  }

  /** A tag pattern matching in the tail of a text matches in the whole. */
  lemma NoBodyTagsSuffix(a: string, b: string)
    requires NoBodyTags(a + b)
    ensures NoBodyTags(b)
  {
    forall i | 0 <= i <= |b|
      ensures !OccursAtNoCase(b, OpenBody, i) && !OccursAtNoCase(b, CloseBody, i)
    {
      assert forall k :: 0 <= k < |b| ==> (a + b)[|a| + k] == b[k];
      assert !OccursAtNoCase(a + b, OpenBody, |a| + i);
      assert !OccursAtNoCase(a + b, CloseBody, |a| + i);
    }
  }

  /** Only the external anchors of a page change: a relative link next to an
      absolute one is left as it is. */
  lemma {:induction false} MixedLinks(cfg: Config, pre: string, ext: Token, rel: Token, post: string, dst: string, cid: string)
    requires ext.Anchor? && IsExternal(ext.attrs) && rel.Anchor? && !IsExternal(rel.attrs)
    ensures Transform(cfg, [Text(pre), ext, rel, Text(post)], dst, cid)
         == pre + TransformLink(ext.open, ext.attrs, ext.body, ext.close, LinkColor(cfg)) + RenderToken(rel) + post
  {
    var d := [Text(pre), ext, rel, Text(post)];
    Transform4(cfg, Text(pre), ext, rel, Text(post), dst, cid);
    var x := TransformToken(cfg, ext, dst, cid);
    var y := TransformToken(cfg, rel, dst, cid);
    assert x == TransformLink(ext.open, ext.attrs, ext.body, ext.close, LinkColor(cfg));
    assert y == RenderToken(rel);
  }

  /** A four-token page is transformed token by token. */
  lemma {:induction false} Transform4(cfg: Config, a: Token, b: Token, c: Token, e: Token, dst: string, cid: string)
    ensures Transform(cfg, [a, b, c, e], dst, cid)
         == TransformToken(cfg, a, dst, cid) + TransformToken(cfg, b, dst, cid)
            + TransformToken(cfg, c, dst, cid) + TransformToken(cfg, e, dst, cid)
  {
    var d := [a, b, c, e];
    assert d == [a] + ([b] + ([c] + [e]));
    assert Transform(cfg, d, dst, cid)
        == Transform(cfg, [a], dst, cid) + (Transform(cfg, [b], dst, cid) + (Transform(cfg, [c], dst, cid) + Transform(cfg, [e], dst, cid))) by {
      TransformAppend(cfg, [a], [b] + ([c] + [e]), dst, cid);
      TransformAppend(cfg, [b], [c] + [e], dst, cid);
      TransformAppend(cfg, [c], [e], dst, cid);
    }
    TransformSingle(cfg, a, dst, cid);
    TransformSingle(cfg, b, dst, cid);
    TransformSingle(cfg, c, dst, cid);
    TransformSingle(cfg, e, dst, cid);
  }

  lemma {:induction false} TransformSingle(cfg: Config, t: Token, dst: string, cid: string)
    ensures Transform(cfg, [t], dst, cid) == TransformToken(cfg, t, dst, cid)
  {
    assert [t][1..] == [];
    assert TransformToken(cfg, t, dst, cid) + [] == TransformToken(cfg, t, dst, cid);
  }

  /** No closing body tag starts anywhere in `s`, in any letter case. */
  predicate NoBodyClose(s: string) {
    forall i :: 0 <= i <= |s| ==> !OccursAtNoCase(s, CloseBody, i)
  }

  const CloseBody := "</body"

  /** A configuration the substitutions insert as it is: Python expands
      backslash escapes in a replacement template, so neither the colour nor
      the header holds a backslash; the header follows the group reference
      `\1` in its template, which would read a leading digit as part of the
      reference, so the header does not start with a digit; and the
      closing-tag substitution runs after the header is in place, so the
      header holds no closing body tag. */
  predicate PlainConfig(cfg: Config) {
    && '\\' !in cfg.linkColor && '\\' !in cfg.header
    && (cfg.header == [] || !('0' <= cfg.header[0] <= '9'))
    && NoBodyClose(cfg.header)
  }

  /** Around a body: the header directly follows the opening tag and the
      tracking text directly precedes the closing tag. */
  lemma {:induction false} BodyInsertions(cfg: Config, pre: string, open: string, inner: Document, close: string, post: string, dst: string, cid: string)
    requires PlainConfig(cfg)
    requires NoBodyTags(pre) && Found(inner) && NoBodyTags(post)
    requires forall k :: 0 <= k < |inner| ==> Untouched(inner[k])
    ensures Transform(cfg, [Text(pre), BodyOpen(open)] + inner + [BodyClose(close), Text(post)], dst, cid)
         == pre + open + cfg.header + Render(inner) + TrackingInsert(cfg.trackingCode, dst, cid) + close + post
  {
    var head := [Text(pre), BodyOpen(open)];
    var tail := [BodyClose(close), Text(post)];
    var tracking := TrackingInsert(cfg.trackingCode, dst, cid);
    var th, ti, tt := Transform(cfg, head, dst, cid), Transform(cfg, inner, dst, cid), Transform(cfg, tail, dst, cid);
    assert Transform(cfg, head + inner, dst, cid) == th + ti by {
      TransformAppend(cfg, head, inner, dst, cid);
    }
    assert Transform(cfg, head + inner + tail, dst, cid) == (th + ti) + tt by {
      TransformAppend(cfg, head + inner, tail, dst, cid);
    }
    assert Transform(cfg, head, dst, cid) == pre + (open + cfg.header) by {
      Transform2(cfg, Text(pre), BodyOpen(open), dst, cid);
    }
    assert Transform(cfg, tail, dst, cid) == (tracking + close) + post by {
      Transform2(cfg, BodyClose(close), Text(post), dst, cid);
    }
    TransformUnchanged(cfg, inner, dst, cid);
    Assoc7(pre, open, cfg.header, Render(inner), tracking, close, post);
  }

  /** Regrouping a concatenation of seven strings. */
  lemma {:induction false} Assoc7(a: string, b: string, c: string, d: string, e: string, f: string, g: string)
    ensures (a + (b + c)) + d + ((e + f) + g) == a + b + c + d + e + f + g
  {
  }

  /** A two-token page is transformed token by token. */
  lemma {:induction false} Transform2(cfg: Config, a: Token, b: Token, dst: string, cid: string)
    ensures Transform(cfg, [a, b], dst, cid) == TransformToken(cfg, a, dst, cid) + TransformToken(cfg, b, dst, cid)
  {
    assert [a, b] == [a] + [b];
    TransformAppend(cfg, [a], [b], dst, cid);
    TransformSingle(cfg, a, dst, cid);
    TransformSingle(cfg, b, dst, cid);
  }

  /** With a tracking code, the text put before the closing body tag is an
      image tag. */
  lemma {:induction false} TrackingTextIsImage(code: string, dst: string, cid: string)
    requires code != []
    ensures StartsWith(TrackingText(code, dst, cid), "<img")
  {
    var t := TrackingText(code, dst, cid);
    var p := "<img src=\"" + CollectUrl;
    assert t[..|p|] == p;
    assert t[..4] == p[..4];
  }
}
